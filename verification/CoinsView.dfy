/**
 * A stack of `CCoinsViewCache` layers over the coin database, as a value.
 * Each operation of src/coins.cpp is a function on the stack; the classes in
 * CoinsViewCache.dfy are proved to compute these functions.
 */
module CoinsView {
  import opened Options
  import opened CoinsRecord

  /** Hashes are compared for equality only; 0 is the null hash. */
  type Hash = nat
  type Txid = Hash

  datatype Entry = Entry(coins: Coins, fDirty: bool, fFresh: bool)

  type EntryMap = map<Txid, Entry>

  datatype View =
    | Db(coins: map<Txid, Coins>, best: Hash)
    | Cache(entries: EntryMap, hashBlock: Hash, base: View)

  /** What `GetCoins` answers. */
  function GetCoins(v: View, txid: Txid): Option<Coins> {
    match v
    case Db(coins, _) => Get(coins, txid)
    case Cache(entries, _, base) => if txid in entries then Some(entries[txid].coins) else GetCoins(base, txid)
  }

  /** The coins a reader sees, a pruned record counting as absent. */
  function LiveAt(v: View, txid: Txid): Option<Coins> {
    match GetCoins(v, txid)
    case None => None
    case Some(c) => Live(c)
  }

  /** `FetchCoins`: the answer is pulled into every layer above the one that had it. */
  function Fetch(v: View, txid: Txid): View {
    match v
    case Db(_, _) => v
    case Cache(entries, hashBlock, base) =>
      if txid in entries then v
      else
        var base' := Fetch(base, txid);
        match GetCoins(base, txid)
        case None => v.(base := base')
        case Some(c) => Cache(entries[txid := Entry(c, false, c.IsPruned())], hashBlock, base')
  }

  /** The state `ModifyCoins` leaves for its modifier. */
  function OpenModify(v: View, txid: Txid): View
    requires v.Cache?
  {
    if txid in v.entries then v.(entries := v.entries[txid := v.entries[txid].(fDirty := true)])
    else
      var base' := Fetch(v.base, txid);
      var e := match GetCoins(v.base, txid)
        case None => Entry(EMPTY_COINS, true, true)
        case Some(c) => Entry(c, true, c.IsPruned());
      v.(entries := v.entries[txid := e], base := base')
  }

  function EntryOrBlank(entries: EntryMap, txid: Txid): Entry {
    if txid in entries then entries[txid] else Entry(EMPTY_COINS, false, false)
  }

  /** The first `logic_error` of src/coins.cpp. */
  predicate NewCoinsThrows(entries: EntryMap, txid: Txid, coinbase: bool) {
    !coinbase && !EntryOrBlank(entries, txid).coins.IsPruned()
  }

  function OpenNew(v: View, txid: Txid, coinbase: bool): View
    requires v.Cache?
  {
    var e := EntryOrBlank(v.entries, txid);
    v.(entries := v.entries[txid := Entry(EMPTY_COINS, true, e.fFresh || (!coinbase && !e.fDirty))])
  }

  /** Editing the record through the open modifier. */
  function Assign(v: View, txid: Txid, coins: Coins): View
    requires v.Cache? && txid in v.entries
  {
    v.(entries := v.entries[txid := v.entries[txid].(coins := coins)])
  }

  /** `~CCoinsModifier`. */
  function Release(v: View, txid: Txid): View
    requires v.Cache? && txid in v.entries
  {
    var e := v.entries[txid].(coins := Cleaned(v.entries[txid].coins));
    v.(entries := if e.fFresh && e.coins.IsPruned() then v.entries - {txid} else v.entries[txid := e])
  }

  function Uncache(v: View, txid: Txid): View
    requires v.Cache?
  {
    if txid in v.entries && !v.entries[txid].fDirty && !v.entries[txid].fFresh
    then v.(entries := v.entries - {txid}) else v
  }

  /** The second `logic_error`: a child entry is FRESH over a live entry of the parent. */
  predicate WriteThrows(ours: EntryMap, txid: Txid, child: Entry) {
    child.fDirty && txid in ours && child.fFresh && !ours[txid].coins.IsPruned()
  }

  predicate BatchThrows(ours: EntryMap, m: EntryMap) {
    exists txid :: txid in m && WriteThrows(ours, txid, m[txid])
  }

  /** What one written entry turns the parent's own entry into. */
  function WriteEntry(ours: Option<Entry>, child: Entry): Option<Entry> {
    if !child.fDirty then ours
    else match ours
      case None =>
        if child.fFresh && child.coins.IsPruned() then None else Some(child)
      case Some(us) =>
        if us.fFresh && child.coins.IsPruned() then None
        else Some(Entry(child.coins, true, us.fFresh))
  }

  function MergedEntry(ours: EntryMap, m: EntryMap, txid: Txid): Option<Entry> {
    if txid in m then WriteEntry(Get(ours, txid), m[txid]) else Get(ours, txid)
  }

  function MergeEntries(ours: EntryMap, m: EntryMap): (r: EntryMap)
    ensures forall txid :: Get(r, txid) == MergedEntry(ours, m, txid)
  {
    map txid | txid in ours.Keys + m.Keys && MergedEntry(ours, m, txid).Some? :: MergedEntry(ours, m, txid).value
  }

  function DbRecord(ours: map<Txid, Coins>, m: EntryMap, txid: Txid): Option<Coins> {
    if txid in m && m[txid].fDirty then Live(m[txid].coins) else Get(ours, txid)
  }

  function DbWrite(ours: map<Txid, Coins>, m: EntryMap): (r: map<Txid, Coins>)
    ensures forall txid :: Get(r, txid) == DbRecord(ours, m, txid)
  {
    map txid | txid in ours.Keys + m.Keys && DbRecord(ours, m, txid).Some? :: DbRecord(ours, m, txid).value
  }

  predicate WriteFails(v: View, m: EntryMap) {
    v.Cache? && BatchThrows(v.entries, m)
  }

  function BatchWrite(v: View, m: EntryMap, hashBlock: Hash): View {
    match v
    case Db(coins, best) => Db(DbWrite(coins, m), if hashBlock != 0 then hashBlock else best)
    case Cache(entries, _, base) => Cache(MergeEntries(entries, m), hashBlock, base)
  }

  function Flush(v: View): View
    requires v.Cache?
  {
    Cache(map[], v.hashBlock, BatchWrite(v.base, v.entries, v.hashBlock))
  }

  function BestBlock(v: View): Hash {
    match v
    case Db(_, best) => best
    case Cache(_, hashBlock, base) => if hashBlock == 0 then BestBlock(base) else hashBlock
  }

  /** `GetBestBlock` also keeps the answer in every layer it was asked in. */
  function FetchBest(v: View): View {
    match v
    case Db(_, _) => v
    case Cache(_, hashBlock, base) => if hashBlock != 0 then v else v.(hashBlock := BestBlock(base), base := FetchBest(base))
  }

  // ----- the flags mean what src/coins.h says they mean -----

  /** FRESH: the base holds nothing live. Not DIRTY: the base holds the same live coins. */
  predicate EntryOk(e: Entry, below: Option<Coins>) {
    && (e.fFresh ==> below == None)
    && (!e.fDirty ==> Live(e.coins) == below)
  }

  ghost predicate WellFlagged(v: View) {
    v.Cache? ==>
      && WellFlagged(v.base)
      && forall txid | txid in v.entries :: EntryOk(v.entries[txid], LiveAt(v.base, txid))
  }

  /** Two views a reader cannot tell apart. */
  ghost predicate SameCoins(v: View, w: View) {
    forall txid :: LiveAt(v, txid) == LiveAt(w, txid)
  }

  /** Reading through any number of layers changes no layer's contents and no layer's flags' meaning. */
  lemma {:induction false} FetchKeeps(v: View, txid: Txid)
    requires WellFlagged(v)
    ensures forall t :: GetCoins(Fetch(v, txid), t) == GetCoins(v, t)
    ensures WellFlagged(Fetch(v, txid)) && SameCoins(v, Fetch(v, txid))
  {
    if v.Cache? {
      FetchKeeps(v.base, txid);
      forall t ensures GetCoins(Fetch(v, txid), t) == GetCoins(v, t) {
        assert GetCoins(Fetch(v.base, txid), t) == GetCoins(v.base, t);
      }
    }
  }

  lemma OpenModifyKeeps(v: View, txid: Txid)
    requires v.Cache? && WellFlagged(v)
    ensures WellFlagged(OpenModify(v, txid)) && SameCoins(v, OpenModify(v, txid))
  {
    FetchKeeps(v.base, txid);
    forall t ensures LiveAt(OpenModify(v, txid), t) == LiveAt(v, t) {
      assert LiveAt(Fetch(v.base, txid), t) == LiveAt(v.base, t);
    }
  }

  /** One written entry: the parent's reader sees the child's coins, and the parent's flags stay true. */
  lemma WriteEntryKeeps(ours: Option<Entry>, child: Entry, below: Option<Coins>)
    requires ours.Some? ==> EntryOk(ours.value, below)
    requires EntryOk(child, if ours.Some? then Live(ours.value.coins) else below)
    ensures
      var r := WriteEntry(ours, child);
      && (r.Some? ==> EntryOk(r.value, below))
      && (if r.Some? then Live(r.value.coins) else below) == Live(child.coins)
  {
  }

  /** Writing a well-flagged child into its base cannot throw and leaves the base showing the child's coins. */
  lemma FlushKeeps(v: View)
    requires v.Cache? && WellFlagged(v)
    ensures !WriteFails(v.base, v.entries)
    ensures WellFlagged(Flush(v)) && SameCoins(v, Flush(v)) && SameCoins(v, Flush(v).base)
    ensures v.base.Cache? ==> Flush(v).base.base == v.base.base
  {
    var base := v.base;
    var base' := Flush(v).base;
    forall txid
      ensures LiveAt(base', txid) == LiveAt(v, txid)
      ensures base.Cache? && txid in base'.entries ==> EntryOk(base'.entries[txid], LiveAt(base.base, txid))
    {
      assert LiveAt(v, txid) == if txid in v.entries then Live(v.entries[txid].coins) else LiveAt(base, txid);
      if base.Cache? {
        assert Get(base'.entries, txid) == MergedEntry(base.entries, v.entries, txid);
        assert LiveAt(base, txid) == if txid in base.entries then Live(base.entries[txid].coins) else LiveAt(base.base, txid);
        assert LiveAt(base', txid) == if txid in base'.entries then Live(base'.entries[txid].coins) else LiveAt(base.base, txid);
        if txid in v.entries {
          WriteEntryKeeps(Get(base.entries, txid), v.entries[txid], LiveAt(base.base, txid));
        }
      } else {
        assert GetCoins(base', txid) == DbRecord(base.coins, v.entries, txid);
      }
    }
  }

  /**
   * Whether `Flush` keeps the best block as seen from the top: always, over a database; over another cache, exactly
   * when this cache holds a hash of its own, the other one holds none, or what lies below has the same one.
   */
  lemma FlushBestBlock(v: View)
    requires v.Cache?
    ensures BestBlock(Flush(v)) == BestBlock(v) <==>
            v.base.Db? || v.hashBlock != 0 || v.base.hashBlock == 0 || v.base.hashBlock == BestBlock(v.base.base)
  {
  }

  /** An untouched cache over one whose best block was set: flushing it forgets that block. */
  lemma FlushForgets()
    ensures
      var v := Cache(map[], 0, Cache(map[], 7, Db(map[], 0)));
      BestBlock(v) == 7 && BestBlock(Flush(v)) == 0
  {
  }

  lemma {:induction false} FetchBestKeeps(v: View)
    ensures BestBlock(FetchBest(v)) == BestBlock(v) && (forall t :: GetCoins(FetchBest(v), t) == GetCoins(v, t))
    ensures WellFlagged(v) ==> WellFlagged(FetchBest(v))
  {
    if v.Cache? {
      FetchBestKeeps(v.base);
      forall t ensures GetCoins(FetchBest(v), t) == GetCoins(v, t) {
        assert GetCoins(FetchBest(v.base), t) == GetCoins(v.base, t);
      }
      if WellFlagged(v) {
        forall t | t in v.entries ensures LiveAt(FetchBest(v.base), t) == LiveAt(v.base, t) {
        }
      }
    }
  }

  /** A cache that was asked for its best block first keeps it through `Flush`. */
  lemma AskedThenFlushed(v: View)
    requires v.Cache?
    ensures FetchBest(v).Cache? && BestBlock(Flush(FetchBest(v))) == BestBlock(v)
  {
    FetchBestKeeps(v.base);
  }
}
