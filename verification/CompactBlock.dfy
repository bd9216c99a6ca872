/**
 * Compact block reconstruction (src/blockencodings.cpp:20-199), following BIP 152.
 * Short ids are an unknown function of the witness hash; a header is present or null.
 */
module CompactBlock {
  import opened Options
  import MerkleModel
  import opened IndexCodec

  datatype Tx = Tx(wtxid: nat, isNull: bool)
  datatype Prefilled = Prefilled(index: nat, tx: Tx)
  datatype Compact = Compact(header: Option<nat>, short: nat -> nat, shorttxids: seq<nat>, prefilledtxn: seq<Prefilled>) {
    function TxCount(): nat { |shorttxids| + |prefilledtxn| }
  }
  datatype ReadStatus = Ok | Invalid | Failed | CheckBlockFailed

  type Slots = seq<Option<Tx>>

  // ----- prefilled transactions -----

  /** Where the running index of the prefilled transactions stands after the first `i`. */
  function LastIndex(pre: seq<Prefilled>, i: nat): int
    requires i <= |pre|
  {
    if i == 0 then -1 else LastIndex(pre, i - 1) + pre[i - 1].index + 1
  }

  /** The position of prefilled transaction `i` in the block. */
  function Position(pre: seq<Prefilled>, i: nat): int
    requires i < |pre|
  {
    LastIndex(pre, i + 1)
  }

  /** The checks on the first `n` prefilled transactions, with `s` short ids. */
  ghost predicate PrefilledOk(pre: seq<Prefilled>, s: nat, n: nat)
    requires n <= |pre|
  {
    forall i {:trigger OneOk(pre, s, i)} | 0 <= i < n :: OneOk(pre, s, i)
  }

  predicate OneOk(pre: seq<Prefilled>, s: nat, i: nat)
    requires i < |pre|
  {
    !pre[i].tx.isNull && Position(pre, i) <= MAX16 && Position(pre, i) <= s + i
  }

  lemma {:induction false} IndexesIncrease(pre: seq<Prefilled>, i: nat, j: nat)
    requires i <= j <= |pre|
    ensures LastIndex(pre, i) + (j - i) <= LastIndex(pre, j) && LastIndex(pre, i) >= i as int - 1
  {
    if i < j {
      IndexesIncrease(pre, i, j - 1);
    } else if i > 0 {
      IndexesIncrease(pre, i - 1, i - 1);
    }
  }

  /** The slots after the first `n` prefilled transactions: exactly their positions are filled. */
  ghost predicate Placed(pre: seq<Prefilled>, n: nat, t: Slots)
    requires n <= |pre|
  {
    && (forall i | 0 <= i < n :: 0 <= Position(pre, i) < |t| && t[Position(pre, i)] == Some(pre[i].tx))
    && (forall j | 0 <= j < |t| && t[j].Some? :: exists i | 0 <= i < n :: Position(pre, i) == j)
  }

  /** The empty slots, in order. */
  function Empty(t: Slots): (e: seq<nat>)
    ensures forall k | 0 <= k < |e| :: e[k] < |t| && t[e[k]].None?
    ensures forall j, k | 0 <= j < k < |e| :: e[j] < e[k]
    ensures forall j | 0 <= j < |t| && t[j].None? :: j in e
  {
    if t == [] then []
    else
      var n := |t| - 1;
      Empty(t[..n]) + if t[n].None? then [n] else []
  }

  lemma {:induction false} EmptyFill(t: Slots, i: nat, tx: Tx)
    requires i < |t| && t[i].None?
    ensures |Empty(t[i := Some(tx)])| == |Empty(t)| - 1
  {
    var n, t' := |t| - 1, t[i := Some(tx)];
    var init := t[..n];
    if i < n {
      EmptyFill(init, i, tx);
      assert t'[..n] == init[i := Some(tx)];
    } else {
      assert t'[..n] == init;
    }
  }

  lemma {:induction false} AllEmpty(t: Slots)
    requires forall i | 0 <= i < |t| :: t[i].None?
    ensures |Empty(t)| == |t|
  {
    if t != [] {
      AllEmpty(t[..|t| - 1]);
    }
  }

  lemma PlaceOne(pre: seq<Prefilled>, n: nat, t: Slots)
    requires n < |pre| && Placed(pre, n, t) && Position(pre, n) < |t|
    ensures 0 <= Position(pre, n) && t[Position(pre, n)].None?
    ensures Placed(pre, n + 1, t[Position(pre, n) := Some(pre[n].tx)])
  {
    var p := Position(pre, n);
    IndexesIncrease(pre, n + 1, n + 1);
    forall i | 0 <= i < n ensures Position(pre, i) < p {
      IndexesIncrease(pre, i + 1, n + 1);
    }
    var t' := t[p := Some(pre[n].tx)];
    forall j | 0 <= j < |t'| && t'[j].Some? ensures exists i | 0 <= i < n + 1 :: Position(pre, i) == j {
      if j == p {
        assert Position(pre, n) == j;
      } else {
        var i :| 0 <= i < n && Position(pre, i) == j;
        assert Position(pre, i) == j;
      }
    }
  }

  // ----- short ids -----

  /** Short id `i` stands for the `i`-th empty slot. */
  function Assigned(sids: seq<nat>, e: seq<nat>): map<nat, nat>
    requires |sids| <= |e|
  {
    if sids == [] then map[] else Assigned(sids[..|sids| - 1], e)[sids[|sids| - 1] := e[|sids| - 1]]
  }

  lemma {:induction false} AssignedMeans(sids: seq<nat>, e: seq<nat>)
    requires |sids| <= |e|
    ensures |Assigned(sids, e)| <= |sids|
    ensures forall x | x in Assigned(sids, e) :: exists i | 0 <= i < |sids| :: sids[i] == x && e[i] == Assigned(sids, e)[x]
  {
    if sids != [] {
      var n := |sids| - 1;
      AssignedMeans(sids[..n], e);
      forall x | x in Assigned(sids, e) ensures exists i | 0 <= i < |sids| :: sids[i] == x && e[i] == Assigned(sids, e)[x] {
        if x == sids[n] {
          assert sids[n] == x;
        } else {
          var i :| 0 <= i < n && sids[..n][i] == x && e[i] == Assigned(sids[..n], e)[x];
          assert sids[i] == x;
        }
      }
    }
  }

  ghost predicate AllDistinct<T>(s: seq<T>) {
    forall i, j | 0 <= i < j < |s| :: s[i] != s[j]
  }

  /** The map is as large as the list iff no short id occurs twice. */
  lemma {:induction false} AssignedSize(sids: seq<nat>, e: seq<nat>)
    requires |sids| <= |e|
    ensures |Assigned(sids, e)| <= |sids| && (|Assigned(sids, e)| == |sids| <==> AllDistinct(sids))
    ensures forall x :: x in Assigned(sids, e) <==> x in sids
  {
    if sids != [] {
      var n := |sids| - 1;
      var most, x := sids[..n], sids[n];
      AssignedSize(most, e);
      assert sids == most + [x];
      assert Assigned(sids, e).Keys == Assigned(most, e).Keys + {x};
      if x in most {
        var i :| 0 <= i < n && most[i] == x;
        assert sids[i] == sids[n];
      } else if AllDistinct(most) {
        forall i, j | 0 <= i < j < |sids| ensures sids[i] != sids[j] {
          assert sids[i] == most[i] && (j < n ==> sids[j] == most[j]);
        }
      } else {
        var i, j :| 0 <= i < j < n && most[i] == most[j];
        assert sids[i] == sids[j];
      }
    }
  }

  // ----- offering known transactions -----

  datatype Known = Known(hash: nat, tx: Tx)
  datatype Scan = Scan(t: Slots, have: seq<bool>, count: int)

  /** A known transaction whose short id is wanted fills its slot once; a second, different one empties it for good. */
  function Offer(sc: Scan, m: map<nat, nat>, sid: nat, tx: Tx, extra: bool): Scan
    requires |sc.have| == |sc.t| && forall x | x in m :: m[x] < |sc.t|
  {
    if sid !in m then sc
    else
      var j := m[sid];
      if !sc.have[j] then Scan(sc.t[j := Some(tx)], sc.have[j := true], sc.count + 1)
      else if sc.t[j].Some? && (extra ==> sc.t[j].value.wtxid != tx.wtxid) then Scan(sc.t[j := None], sc.have, sc.count - 1)
      else sc
  }

  /** The slots a short id has filled. */
  function FilledSlots(t0: Slots, t: Slots): set<nat>
    requires |t0| == |t|
  {
    set j | 0 <= j < |t| && t0[j].None? && t[j].Some?
  }

  /** What fills slot `j` was known under the short id that stands for `j`. */
  ghost predicate Matches(short: nat -> nat, m: map<nat, nat>, known: set<Known>, j: nat, tx: Tx) {
    exists k | k in known :: k.tx == tx && short(k.hash) in m && m[short(k.hash)] == j
  }

  ghost predicate ScanOk(t0: Slots, short: nat -> nat, m: map<nat, nat>, known: set<Known>, sc: Scan) {
    && |sc.have| == |sc.t| == |t0| && (forall x | x in m :: m[x] < |t0| && t0[m[x]].None?)
    && sc.count == |FilledSlots(t0, sc.t)|
    && (forall j | 0 <= j < |t0| && t0[j].Some? :: sc.t[j] == t0[j])
    && (forall j | 0 <= j < |t0| && t0[j].None? && sc.t[j].Some? :: sc.have[j] && Matches(short, m, known, j, sc.t[j].value))
  }

  lemma OfferKeeps(t0: Slots, short: nat -> nat, m: map<nat, nat>, known: set<Known>, sc: Scan, k: Known, extra: bool)
    requires ScanOk(t0, short, m, known, sc) && k in known
    ensures ScanOk(t0, short, m, known, Offer(sc, m, short(k.hash), k.tx, extra))
  {
    var sid := short(k.hash);
    var sc' := Offer(sc, m, sid, k.tx, extra);
    if sid in m {
      var j := m[sid];
      assert Matches(short, m, known, j, k.tx);
      if !sc.have[j] {
        assert FilledSlots(t0, sc'.t) == FilledSlots(t0, sc.t) + {j};
      } else if sc'.t != sc.t {
        assert FilledSlots(t0, sc'.t) == FilledSlots(t0, sc.t) - {j};
      }
    }
  }

  // ----- filling in what was requested -----

  /** The block with the empty slots taken, in order, from the requested transactions. */
  function Filled(t: Slots, missing: seq<Tx>): (vtx: seq<Tx>)
    requires |missing| >= |Empty(t)|
    ensures |vtx| == |t|
  {
    if t == [] then []
    else
      var n := |t| - 1;
      Filled(t[..n], missing) + [if t[n].Some? then t[n].value else missing[|Empty(t[..n])|]]
  }

  /** The transactions of a block at the positions that are still empty. */
  function Requested(block: seq<Tx>, t: Slots): (r: seq<Tx>)
    requires |t| == |block|
    ensures |r| == |Empty(t)| && forall k | 0 <= k < |r| :: r[k] == block[Empty(t)[k]]
  {
    seq(|Empty(t)|, k requires 0 <= k < |Empty(t)| => block[Empty(t)[k]])
  }

  lemma {:induction false} FillsIn(block: seq<Tx>, t: Slots, missing: seq<Tx>)
    requires |t| == |block| && (forall j | 0 <= j < |t| && t[j].Some? :: t[j].value == block[j])
    requires |missing| >= |Empty(t)| && forall k | 0 <= k < |Empty(t)| :: missing[k] == block[Empty(t)[k]]
    ensures Filled(t, missing) == block
  {
    if t != [] {
      var n := |t| - 1;
      var e, e' := Empty(t), Empty(t[..n]);
      assert e == e' + if t[n].None? then [n] else [];
      forall k | 0 <= k < |e'| ensures missing[k] == block[..n][e'[k]] {
        assert e[k] == e'[k];
      }
      FillsIn(block[..n], t[..n], missing);
      if t[n].None? {
        assert e[|e'|] == n;
      }
      assert block == block[..n] + [block[n]];
    }
  }

  // ----- a block's own compact form -----

  function CompactOf(block: seq<Tx>, header: nat, short: nat -> nat): Compact
    requires |block| > 0
  {
    Compact(Some(header), short, ShortIds(block, short), [Prefilled(0, block[0])])
  }

  /** The short ids of all transactions but the first. */
  function ShortIds(block: seq<Tx>, short: nat -> nat): (s: seq<nat>)
    requires |block| > 0
    ensures |s| == |block| - 1 && forall i | 0 <= i < |s| :: s[i] == short(block[i + 1].wtxid)
  {
    if |block| == 1 then [] else ShortIds(block[..|block| - 1], short) + [short(block[|block| - 1].wtxid)]
  }

  /** `CBlockHeaderAndShortTxIDs` of a block, with witness hashes. */
  method MakeCompact(block: seq<Tx>, header: nat, short: nat -> nat) returns (c: Compact)
    requires |block| > 0
    ensures c == CompactOf(block, header, short)
  {
    var shorttxids := new nat[|block| - 1];
    for i := 1 to |block|
      invariant forall k | 0 <= k < i - 1 :: shorttxids[k] == short(block[k + 1].wtxid)
    {
      shorttxids[i - 1] := short(block[i].wtxid);
    }
    c := Compact(Some(header), short, shorttxids[..], [Prefilled(0, block[0])]);
  }

  /** What a successful `InitData` leaves behind. */
  ghost predicate Initialized(c: Compact, known: set<Known>, t0: Slots, m: map<nat, nat>, t: Slots, count: int) {
    && |t| == |t0| == c.TxCount() && PrefilledOk(c.prefilledtxn, |c.shorttxids|, |c.prefilledtxn|)
    && Placed(c.prefilledtxn, |c.prefilledtxn|, t0)
    && |Empty(t0)| == |c.shorttxids| == |m| && m == Assigned(c.shorttxids, Empty(t0))
    && count == |FilledSlots(t0, t)|
    && (forall j | 0 <= j < |t0| && t0[j].Some? :: t[j] == t0[j])
    && (forall j | 0 <= j < |t0| && t0[j].None? && t[j].Some? :: Matches(c.short, m, known, j, t[j].value))
  }

  ghost predicate ShortIdsInjective(short: nat -> nat, txs: set<Tx>) {
    forall a, b | a in txs && b in txs && short(a.wtxid) == short(b.wtxid) :: a == b
  }

  lemma OwnPrefilled(block: seq<Tx>, header: nat, short: nat -> nat, t0: Slots)
    requires |block| > 0 && |t0| == |block|
    requires var c := CompactOf(block, header, short); Placed(c.prefilledtxn, 1, t0) && |Empty(t0)| == |c.shorttxids|
    ensures t0[0] == Some(block[0]) && forall k | 0 <= k < |Empty(t0)| :: Empty(t0)[k] == k + 1
  {
    var pre := CompactOf(block, header, short).prefilledtxn;
    assert LastIndex(pre, 0) == -1;
    assert Position(pre, 0) == 0;
    assert t0[0] == Some(pre[0].tx);
    var e := Empty(t0);
    if |e| > 0 {
      assert e[0] != 0;
      Bounded(e, |t0|);
    }
  }

  lemma {:induction false} Ascending(e: seq<nat>, k: nat)
    requires k < |e| && forall i, j | 0 <= i < j < |e| :: e[i] < e[j]
    ensures e[0] + k <= e[k] && e[k] + (|e| - 1 - k) <= e[|e| - 1]
    decreases |e|
  {
    if |e| > 1 {
      if k > 0 {
        Ascending(e[1..], k - 1);
      } else {
        Ascending(e[1..], 0);
      }
    }
  }

  /** `n - 1` ascending positive numbers below `n` are 1, 2, ... */
  lemma Bounded(e: seq<nat>, n: nat)
    requires 0 < |e| == n - 1 && e[0] >= 1 && (forall k | 0 <= k < |e| :: e[k] < n)
    requires forall i, j | 0 <= i < j < |e| :: e[i] < e[j]
    ensures forall k | 0 <= k < |e| :: e[k] == k + 1
  {
    forall k | 0 <= k < |e| ensures e[k] == k + 1 {
      Ascending(e, k);
    }
  }

  /** Every slot that `InitData` filled holds the block's own transaction at that position. */
  lemma OwnSlots(block: seq<Tx>, header: nat, short: nat -> nat, known: set<Known>, t0: Slots, m: map<nat, nat>, t: Slots, count: int)
    requires |block| > 0 && Initialized(CompactOf(block, header, short), known, t0, m, t, count)
    requires ShortIdsInjective(short, (set x | x in block) + (set k | k in known :: k.tx))
    requires forall k | k in known :: k.hash == k.tx.wtxid
    ensures forall j | 0 <= j < |t| && t[j].Some? :: t[j].value == block[j]
  {
    forall j | 0 <= j < |t| && t[j].Some? ensures t[j].value == block[j] {
      OwnPrefilled(block, header, short, t0);
      if t0[j].None? {
        assert Matches(short, m, known, j, t[j].value);
        var k :| k in known && k.tx == t[j].value && short(k.hash) in m && m[short(k.hash)] == j;
        OwnShortId(block, short, Empty(t0), short(k.hash));
        assert k.tx in (set x | x in block) + (set k | k in known :: k.tx);
      }
    }
  }

  /** In a block's own compact form a short id stands for the position of its transaction. */
  lemma OwnShortId(block: seq<Tx>, short: nat -> nat, e: seq<nat>, x: nat)
    requires |block| > 0 && |e| == |block| - 1 && (forall k | 0 <= k < |e| :: e[k] == k + 1)
    requires x in Assigned(ShortIds(block, short), e)
    ensures
      var j := Assigned(ShortIds(block, short), e)[x];
      0 < j < |block| && short(block[j].wtxid) == x && block[j] in block
  {
    var sids := ShortIds(block, short);
    AssignedMeans(sids, e);
    var i :| 0 <= i < |sids| && sids[i] == x && e[i] == Assigned(sids, e)[x];
  }

  /** Reconstruction: filling in the requested transactions gives back the block, transaction for transaction. */
  lemma Reconstructs(block: seq<Tx>, header: nat, short: nat -> nat, known: set<Known>, t0: Slots, m: map<nat, nat>, t: Slots, count: int)
    requires |block| > 0 && Initialized(CompactOf(block, header, short), known, t0, m, t, count)
    requires ShortIdsInjective(short, (set x | x in block) + (set k | k in known :: k.tx))
    requires forall k | k in known :: k.hash == k.tx.wtxid
    ensures Filled(t, Requested(block, t)) == block
  {
    OwnSlots(block, header, short, known, t0, m, t, count);
    FillsIn(block, t, Requested(block, t));
  }

  /** The verdict of `CheckBlock`, which is not part of this model. */
  datatype Verdict = Valid | Corrupt | Rejected

  /** The bucket heuristic gives up at one of the first `n` short ids. */
  ghost predicate Crowded(crowded: nat -> bool, n: nat) {
    exists i: nat :: i < n && crowded(i)
  }

  lemma CrowdedNext(crowded: nat -> bool, i: nat, n: nat)
    requires i < n
    ensures Crowded(crowded, i + 1) <==> Crowded(crowded, i) || crowded(i)
    ensures crowded(i) ==> Crowded(crowded, n)
  {
  }

  class PartiallyDownloadedBlock {
    const pool: seq<Known>
    var header: Option<nat>
    var txn_available: Slots
    var prefilled_count: nat
    var mempool_count: int

    constructor (pool: seq<Known>)
      ensures this.pool == pool && header == None && txn_available == [] && prefilled_count == mempool_count == 0
    {
      this.pool := pool;
      header, txn_available, prefilled_count, mempool_count := None, [], 0, 0;
    }

    /** Puts the prefilled transactions at their positions; false when an index or a transaction is invalid. */
    method PlacePrefilled(c: Compact) returns (ok: bool)
      requires |txn_available| == c.TxCount() && forall i | 0 <= i < |txn_available| :: txn_available[i].None?
      modifies this`txn_available
      ensures ok <==> PrefilledOk(c.prefilledtxn, |c.shorttxids|, |c.prefilledtxn|)
      ensures ok ==> Placing(c, |c.prefilledtxn|, txn_available)
    {
      var lastprefilledindex := -1;
      PlacingNone(c, txn_available);
      for i := 0 to |c.prefilledtxn|
        invariant lastprefilledindex == LastIndex(c.prefilledtxn, i) && Placing(c, i, txn_available)
      {
        ok, lastprefilledindex := PlaceNext(c, i, lastprefilledindex);
        if !ok {
          return;
        }
      }
      ok := true;
    }

    method PlaceNext(c: Compact, i: nat, last: int) returns (ok: bool, lastprefilledindex: int)
      requires Placing(c, i, txn_available) && i < |c.prefilledtxn| && last == LastIndex(c.prefilledtxn, i)
      modifies this`txn_available
      ensures ok <==> OneOk(c.prefilledtxn, |c.shorttxids|, i)
      ensures ok ==> Placing(c, i + 1, txn_available) && lastprefilledindex == LastIndex(c.prefilledtxn, i + 1)
    {
      var p := c.prefilledtxn[i];
      lastprefilledindex := last + p.index + 1;
      assert lastprefilledindex == Position(c.prefilledtxn, i);
      if p.tx.isNull || lastprefilledindex > MAX16 || lastprefilledindex > |c.shorttxids| + i {
        return false, lastprefilledindex;
      }
      PlacingStep(c, i, txn_available);
      txn_available := txn_available[lastprefilledindex := Some(p.tx)];
      ok := true;
    }

    /** Maps each short id to the next empty slot. `crowded(i)`: the bucket short id `i` went into holds more than 12. */
    method AssignSlots(c: Compact, crowded: nat -> bool) returns (unlucky: bool, m: map<nat, nat>)
      requires |Empty(txn_available)| == |c.shorttxids|
      ensures unlucky <==> Crowded(crowded, |c.shorttxids|)
      ensures !unlucky ==> m == Assigned(c.shorttxids, Empty(txn_available))
    {
      var sids := c.shorttxids;
      ghost var e := Empty(txn_available);
      m := map[];
      var index_offset := 0;
      for i := 0 to |sids|
        invariant AtSlot(e, i, i + index_offset) && m == Assigned(sids[..i], e) && !Crowded(crowded, i)
      {
        var p := NextFree(txn_available, i, i + index_offset);
        index_offset := p - i;
        AssignOne(sids, e, i);
        m := m[sids[i] := p];
        unlucky := crowded(i);
        CrowdedNext(crowded, i, |sids|);
        if unlucky {
          return;
        }
      }
      AssignAll(sids, e);
      unlucky := false;
    }

    /** One scan over known transactions, with the early exit once all short ids are filled. */
    method ScanKnown(c: Compact, m: map<nat, nat>, list: seq<Known>, extra: bool, have0: seq<bool>, ghost t0: Slots, ghost known: set<Known>)
      returns (have: seq<bool>)
      requires (forall k | k in list :: k in known) && ScanOk(t0, c.short, m, known, Scan(txn_available, have0, mempool_count))
      modifies this`txn_available, this`mempool_count
      ensures ScanOk(t0, c.short, m, known, Scan(txn_available, have, mempool_count))
    {
      have := have0;
      for i := 0 to |list|
        invariant ScanOk(t0, c.short, m, known, Scan(txn_available, have, mempool_count))
      {
        OfferKeeps(t0, c.short, m, known, Scan(txn_available, have, mempool_count), list[i], extra);
        var shortid := c.short(list[i].hash);
        if shortid in m {
          have := OfferOne(m[shortid], list[i].tx, extra, have);
        }
        if mempool_count == |m| {
          break;
        }
      }
    }

    method OfferOne(j: nat, tx: Tx, extra: bool, have0: seq<bool>) returns (have: seq<bool>)
      requires j < |txn_available| == |have0|
      modifies this`txn_available, this`mempool_count
      ensures Scan(txn_available, have, mempool_count) == Offer(old(Scan(txn_available, have0, mempool_count)), map[0 := j], 0, tx, extra)
    {
      have := have0;
      if !have[j] {
        txn_available := txn_available[j := Some(tx)];
        have := have[j := true];
        mempool_count := mempool_count + 1;
      } else if txn_available[j].Some? && (!extra || txn_available[j].value.wtxid != tx.wtxid) {
        txn_available := txn_available[j := None];
        mempool_count := mempool_count - 1;
      }
    }

    /** Everything after the prefilled transactions are in place. */
    method MatchShortIds(c: Compact, extra_txn: seq<Known>, crowded: nat -> bool) returns (ok: bool, ghost m: map<nat, nat>)
      requires Placing(c, |c.prefilledtxn|, txn_available) && mempool_count == 0
      modifies this`txn_available, this`mempool_count
      ensures ok <==> !Crowded(crowded, |c.shorttxids|) && AllDistinct(c.shorttxids)
      ensures ok ==> Initialized(c, (set k | k in pool + extra_txn), old(txn_available), m, txn_available, mempool_count)
    {
      m := map[];
      var unlucky, slotOf := AssignSlots(c, crowded);
      AssignedSize(c.shorttxids, Empty(txn_available));
      if unlucky || |slotOf| != |c.shorttxids| {
        return false, m;
      }
      m := slotOf;
      ghost var t0, known := txn_available, set k | k in pool + extra_txn;
      var have := seq(|txn_available|, _ => false);
      ScanStart(t0, c, m, known, have);
      have := ScanKnown(c, slotOf, pool, false, have, t0, known);
      have := ScanKnown(c, slotOf, extra_txn, true, have, t0, known);
      ok := true;
    }

    method InitData(c: Compact, extra_txn: seq<Known>, crowded: nat -> bool) returns (status: ReadStatus, ghost t0: Slots, ghost m: map<nat, nat>)
      requires header == None && txn_available == [] && mempool_count == 0 && c.TxCount() <= MAX16
      modifies this
      ensures status == Invalid <==>
        c.header == None || c.TxCount() == 0 || !PrefilledOk(c.prefilledtxn, |c.shorttxids|, |c.prefilledtxn|)
      ensures status == Failed <==> status != Invalid && (Crowded(crowded, |c.shorttxids|) || !AllDistinct(c.shorttxids))
      ensures status != CheckBlockFailed
      ensures status == Ok ==> header == c.header && prefilled_count == |c.prefilledtxn|
      ensures status == Ok ==> Initialized(c, (set k | k in pool + extra_txn), t0, m, txn_available, mempool_count)
    {
      status, t0, m := Invalid, [], map[];
      if c.header == None || (|c.shorttxids| == 0 && |c.prefilledtxn| == 0) {
        return;
      }
      if |c.shorttxids| + |c.prefilledtxn| > MerkleModel.MAX_BLOCK_VTX {
        return;
      }
      header := c.header;
      txn_available := seq(c.TxCount(), _ => None);
      var ok := PlacePrefilled(c);
      if !ok {
        return;
      }
      prefilled_count := |c.prefilledtxn|;
      t0 := txn_available;
      ok, m := MatchShortIds(c, extra_txn, crowded);
      status := if ok then Ok else Failed;
    }

    /** Moves the slots out, taking what is missing from the list in order; when it runs short, earlier slots are gone. */
    method TakeAll(vtx_missing: seq<Tx>) returns (enough: bool, vtx: seq<Tx>, tx_missing_offset: nat)
      modifies this`txn_available
      ensures
        var t := old(txn_available);
        && (enough <==> |vtx_missing| >= |Empty(t)|)
        && (enough ==> vtx == Filled(t, vtx_missing) && tx_missing_offset == |Empty(t)|)
        && (!enough ==> txn_available == Moved(t, Empty(t)[|vtx_missing|]))
    {
      ghost var t := txn_available;
      vtx, tx_missing_offset := [], 0;
      TakingStart(t, vtx_missing);
      for i := 0 to |txn_available|
        invariant Taking(t, vtx_missing, i, txn_available, vtx, tx_missing_offset)
      {
        TakingNext(t, vtx_missing, i, txn_available, vtx, tx_missing_offset);
        if txn_available[i].None? {
          if |vtx_missing| <= tx_missing_offset {
            return false, vtx, tx_missing_offset;
          }
          vtx := vtx + [vtx_missing[tx_missing_offset]];
          tx_missing_offset := tx_missing_offset + 1;
        } else {
          vtx := vtx + [txn_available[i].value];
          txn_available := txn_available[i := None];
        }
      }
      assert t[..|t|] == t;
      enough := true;
    }

    method FillBlock(vtx_missing: seq<Tx>, verdict: Verdict) returns (status: ReadStatus, vtx: seq<Tx>)
      requires header.Some?
      modifies this
      ensures
        var t := old(txn_available);
        if |vtx_missing| < |Empty(t)| then
          status == Invalid && header == old(header) && txn_available == Moved(t, Empty(t)[|vtx_missing|])
        else
          && header == None && txn_available == []
          && if |vtx_missing| > |Empty(t)| then status == Invalid
             else vtx == Filled(t, vtx_missing)
                  && status == match verdict case Valid => Ok case Corrupt => Failed case Rejected => CheckBlockFailed
    {
      var enough, tx_missing_offset;
      enough, vtx, tx_missing_offset := TakeAll(vtx_missing);
      if !enough {
        return Invalid, vtx;
      }
      header, txn_available := None, [];
      if |vtx_missing| != tx_missing_offset {
        return Invalid, vtx;
      }
      status := match verdict case Valid => Ok case Corrupt => Failed case Rejected => CheckBlockFailed;
    }
  }

  /** The first `n` slots were moved out. */
  function Moved(t: Slots, n: nat): (r: Slots)
    requires n <= |t|
    ensures |r| == |t| && forall j | 0 <= j < |t| :: r[j] == if j < n then None else t[j]
  {
    seq(|t|, j requires 0 <= j < |t| => if j < n then None else t[j])
  }

  /** The first `i` slots were taken. */
  ghost predicate Taking(t: Slots, missing: seq<Tx>, i: nat, now: Slots, vtx: seq<Tx>, offset: nat) {
    i <= |t| && now == Moved(t, i) && offset == |Empty(t[..i])| <= |missing| && vtx == Filled(t[..i], missing)
  }

  lemma TakingStart(t: Slots, missing: seq<Tx>)
    ensures Taking(t, missing, 0, t, [], 0)
  {
    assert t[..0] == [];
  }

  lemma {:induction false} TakingNext(t: Slots, missing: seq<Tx>, i: nat, now: Slots, vtx: seq<Tx>, offset: nat)
    requires i < |t| && Taking(t, missing, i, now, vtx, offset)
    ensures now[i] == t[i]
    ensures t[i].Some? ==> Taking(t, missing, i + 1, now[i := None], vtx + [t[i].value], offset)
    ensures t[i].None? && offset < |missing| ==> Taking(t, missing, i + 1, now, vtx + [missing[offset]], offset + 1)
    ensures t[i].None? && offset == |missing| ==> |missing| < |Empty(t)| && Empty(t)[|missing|] == i
  {
    EmptyGrows(t, i);
    MovedNext(t, i);
    if t[i].Some? {
      FilledGrows(t, i, missing);
    } else {
      EmptyHere(t, i);
      if offset < |missing| {
        FilledGrows(t, i, missing);
      }
    }
  }

  lemma MovedNext(t: Slots, i: nat)
    requires i < |t|
    ensures Moved(t, i)[i := None] == Moved(t, i + 1) && (t[i].None? ==> Moved(t, i) == Moved(t, i + 1))
  {
  }

  /** The empty slots before an empty one number its place among them. */
  lemma {:induction false} EmptyHere(t: Slots, i: nat)
    requires i < |t| && t[i].None?
    ensures |Empty(t[..i])| < |Empty(t)| && Empty(t)[|Empty(t[..i])|] == i
    decreases |t|
  {
    var n := |t| - 1;
    if i < n {
      EmptyHere(t[..n], i);
      assert t[..n][..i] == t[..i];
    }
  }

  lemma {:induction false} EmptyGrows(t: Slots, i: nat)
    requires i < |t|
    ensures |Empty(t[..i + 1])| == |Empty(t[..i])| + (if t[i].None? then 1 else 0) <= |Empty(t)|
    decreases |t|
  {
    assert t[..i + 1][..i] == t[..i];
    if i + 1 < |t| {
      var n := |t| - 1;
      EmptyGrows(t[..n], i);
      assert t[..n][..i + 1] == t[..i + 1] && t[..n][..i] == t[..i];
    } else {
      assert t[..i + 1] == t;
    }
  }

  lemma {:induction false} FilledGrows(t: Slots, i: nat, missing: seq<Tx>)
    requires i < |t| && |missing| >= |Empty(t[..i])| + if t[i].None? then 1 else 0
    ensures |missing| >= |Empty(t[..i + 1])|
    ensures Filled(t[..i + 1], missing) == Filled(t[..i], missing) + [if t[i].Some? then t[i].value else missing[|Empty(t[..i])|]]
  {
    assert t[..i + 1][..i] == t[..i];
  }

  lemma ScanStart(t0: Slots, c: Compact, m: map<nat, nat>, known: set<Known>, have: seq<bool>)
    requires |have| == |t0| && |Empty(t0)| == |c.shorttxids| && m == Assigned(c.shorttxids, Empty(t0))
    ensures ScanOk(t0, c.short, m, known, Scan(t0, have, 0))
  {
    assert FilledSlots(t0, t0) == {};
    AssignedMeans(c.shorttxids, Empty(t0));
  }

  ghost predicate Placing(c: Compact, i: nat, t: Slots) {
    && i <= |c.prefilledtxn| && |t| == c.TxCount() && PrefilledOk(c.prefilledtxn, |c.shorttxids|, i)
    && Placed(c.prefilledtxn, i, t) && |Empty(t)| == c.TxCount() - i
  }

  lemma PlacingNone(c: Compact, t: Slots)
    requires |t| == c.TxCount() && forall i | 0 <= i < |t| :: t[i].None?
    ensures Placing(c, 0, t)
  {
    AllEmpty(t);
  }

  lemma PlacingStep(c: Compact, i: nat, t: Slots)
    requires Placing(c, i, t) && i < |c.prefilledtxn| && OneOk(c.prefilledtxn, |c.shorttxids|, i)
    ensures 0 <= Position(c.prefilledtxn, i) < |t|
    ensures Placing(c, i + 1, t[Position(c.prefilledtxn, i) := Some(c.prefilledtxn[i].tx)])
  {
    PlaceOne(c.prefilledtxn, i, t);
    EmptyFill(t, Position(c.prefilledtxn, i), c.prefilledtxn[i].tx);
  }

  /** Position `p` lies past the first `i` empty slots and not past the next one. */
  ghost predicate AtSlot(e: seq<nat>, i: nat, p: int) {
    0 <= i <= p && i <= |e| && (i > 0 ==> e[i - 1] < p) && (i < |e| ==> p <= e[i])
  }

  /** Steps over filled slots; the empty slot it looks for keeps it in range. */
  method NextFree(t: Slots, i: nat, start: nat) returns (p: nat)
    requires i < |Empty(t)| && AtSlot(Empty(t), i, start)
    ensures p == Empty(t)[i] && AtSlot(Empty(t), i + 1, p + 1)
  {
    p := start;
    while t[p].Some?
      invariant start <= p <= Empty(t)[i]
      decreases Empty(t)[i] - p
    {
      p := p + 1;
    }
    NextEmpty(t, i, p);
  }

  lemma AssignAll(sids: seq<nat>, e: seq<nat>)
    requires |sids| <= |e|
    ensures Assigned(sids[..|sids|], e) == Assigned(sids, e)
  {
    assert sids[..|sids|] == sids;
  }

  lemma AssignOne(sids: seq<nat>, e: seq<nat>, i: nat)
    requires i < |sids| <= |e|
    ensures Assigned(sids[..i + 1], e) == Assigned(sids[..i], e)[sids[i] := e[i]]
  {
    assert sids[..i + 1][..i] == sids[..i];
  }

  lemma NextEmpty(t: Slots, i: nat, p: nat)
    requires i < |Empty(t)| && p <= Empty(t)[i] && t[p].None? && (i > 0 ==> Empty(t)[i - 1] < p)
    ensures Empty(t)[i] == p
  {
    var e := Empty(t);
    var k :| 0 <= k < |e| && e[k] == p;
  }

  /** Different transactions with injective short ids have different short ids. */
  lemma OwnDistinct(block: seq<Tx>, short: nat -> nat, txs: set<Tx>)
    requires |block| > 0 && ShortIdsInjective(short, txs) && forall x | x in block :: x in txs
    ensures AllDistinct(ShortIds(block, short)) <==> AllDistinct(block[1..])
  {
    var s, b := ShortIds(block, short), block[1..];
    forall i, j | 0 <= i < j < |b| ensures s[i] == s[j] <==> b[i] == b[j] {
      assert block[i + 1] in block && block[j + 1] in block;
    }
  }

  lemma OwnPrefilledOk(block: seq<Tx>, header: nat, short: nat -> nat)
    requires |block| > 0
    ensures
      var c := CompactOf(block, header, short);
      PrefilledOk(c.prefilledtxn, |c.shorttxids|, 1) <==> !block[0].isNull
  {
    var c := CompactOf(block, header, short);
    assert LastIndex(c.prefilledtxn, 0) == -1;
    assert Position(c.prefilledtxn, 0) == 0;
    assert OneOk(c.prefilledtxn, |c.shorttxids|, 0) <==> !block[0].isNull;
  }

  /**
   * The whole exchange: compact form, own pool, request for what is missing, and the block again. It succeeds unless the
   * bucket heuristic gives up, the block repeats a transaction or its coinbase is null.
   */
  method Exchange(block: seq<Tx>, hash: nat, short: nat -> nat, pool: seq<Known>, extra: seq<Known>, crowded: nat -> bool)
    returns (ok: bool, vtx: seq<Tx>)
    requires 0 < |block| <= MAX16
    requires ShortIdsInjective(short, (set x | x in block) + (set k | k in pool + extra :: k.tx))
    requires forall k | k in pool + extra :: k.hash == k.tx.wtxid
    ensures ok ==> vtx == block
    ensures ok <==> !Crowded(crowded, |block| - 1) && AllDistinct(block[1..]) && !block[0].isNull
  {
    var c := MakeCompact(block, hash, short);
    var p := new PartiallyDownloadedBlock(pool);
    OwnPrefilledOk(block, hash, short);
    OwnDistinct(block, short, (set x | x in block) + (set k | k in pool + extra :: k.tx));
    var status, t0, m := p.InitData(c, extra, crowded);
    if status != Ok {
      return false, [];
    }
    ghost var known := set k | k in pool + extra;
    assert (set k | k in known :: k.tx) == set k | k in pool + extra :: k.tx;
    Reconstructs(block, hash, short, known, t0, m, p.txn_available, p.mempool_count);
    var missing := Requested(block, p.txn_available);
    status, vtx := p.FillBlock(missing, Valid);
    ok := status == Ok;
  }
}
