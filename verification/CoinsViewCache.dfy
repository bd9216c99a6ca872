/** The classes of src/coins.cpp, each method proved to compute the stack function of CoinsView.dfy. */
module CoinsViewCache {
  import opened Options
  import opened CoinsRecord
  import opened CoinsView

  class CoinsDb {
    var coins: map<Txid, Coins>
    var best: Hash

    constructor (coins: map<Txid, Coins>, best: Hash)
      ensures Model() == Db(coins, best)
    {
      this.coins, this.best := coins, best;
    }

    ghost function Model(): View
      reads this
    {
      Db(coins, best)
    }

    /** `CCoinsViewDB::BatchWrite`, entries in any order. */
    method BatchWrite(mapCoins: EntryMap, hashBlock: Hash)
      modifies this
      ensures Model() == CoinsView.BatchWrite(old(Model()), mapCoins, hashBlock)
    {
      ghost var ours := coins;
      var rest := mapCoins;
      while rest != map[]
        invariant DbPartly(ours, mapCoins, rest, coins) && best == old(best)
        decreases |rest|
      {
        var txid :| txid in rest;
        DbPartlyStep(ours, mapCoins, rest, coins, txid);
        if rest[txid].fDirty {
          if rest[txid].coins.IsPruned() {
            coins := coins - {txid};
          } else {
            coins := coins[txid := rest[txid].coins];
          }
        }
        rest := rest - {txid};
      }
      if hashBlock != 0 {
        best := hashBlock;
      }
      DbPartlyEnds(ours, mapCoins, coins);
    }
  }

  /** All of `m` but `rest` has been written over `ours`. */
  ghost predicate DbPartly(ours: map<Txid, Coins>, m: EntryMap, rest: EntryMap, now: map<Txid, Coins>) {
    && (forall t | t in rest :: t in m && rest[t] == m[t])
    && (forall t {:trigger Get(now, t)} :: Get(now, t) == if t in rest then Get(ours, t) else DbRecord(ours, m, t))
  }

  function DbPut(coins: map<Txid, Coins>, txid: Txid, e: Entry): map<Txid, Coins> {
    if !e.fDirty then coins else if e.coins.IsPruned() then coins - {txid} else coins[txid := e.coins]
  }

  lemma DbPartlyStep(ours: map<Txid, Coins>, m: EntryMap, rest: EntryMap, now: map<Txid, Coins>, txid: Txid)
    requires DbPartly(ours, m, rest, now) && txid in rest
    ensures DbPartly(ours, m, rest - {txid}, DbPut(now, txid, rest[txid]))
  {
    var now' := DbPut(now, txid, rest[txid]);
    forall t ensures Get(now', t) == if t in rest - {txid} then Get(ours, t) else DbRecord(ours, m, t) {
      assert Get(now, t) == if t in rest then Get(ours, t) else DbRecord(ours, m, t);
    }
  }

  lemma DbPartlyEnds(ours: map<Txid, Coins>, m: EntryMap, now: map<Txid, Coins>)
    requires DbPartly(ours, m, map[], now)
    ensures now == DbWrite(ours, m)
  {
    forall t ensures Get(now, t) == Get(DbWrite(ours, m), t) {
      assert Get(DbWrite(ours, m), t) == DbRecord(ours, m, t);
    }
    SameLookup(now, DbWrite(ours, m));
  }

  /** The same for a cache; nothing written so far would have thrown. */
  ghost predicate Partly(ours: EntryMap, m: EntryMap, rest: EntryMap, now: EntryMap) {
    && (forall t | t in rest :: t in m && rest[t] == m[t])
    && (forall t {:trigger Get(now, t)} :: Get(now, t) == if t in rest then Get(ours, t) else MergedEntry(ours, m, t))
    && (forall t | t in m && t !in rest :: !WriteThrows(ours, t, m[t]))
  }

  lemma PartlyStep(ours: EntryMap, m: EntryMap, rest: EntryMap, now: EntryMap, txid: Txid, now': EntryMap)
    requires Partly(ours, m, rest, now) && txid in rest && !WriteThrows(now, txid, rest[txid])
    requires Get(now', txid) == WriteEntry(Get(now, txid), rest[txid])
    requires forall t | t != txid :: Get(now', t) == Get(now, t)
    ensures Partly(ours, m, rest - {txid}, now')
  {
    assert Get(now, txid) == Get(ours, txid);
    forall t ensures Get(now', t) == if t in rest - {txid} then Get(ours, t) else MergedEntry(ours, m, t) {
      assert Get(now, t) == if t in rest then Get(ours, t) else MergedEntry(ours, m, t);
    }
  }

  lemma PartlyThrows(ours: EntryMap, m: EntryMap, rest: EntryMap, now: EntryMap, txid: Txid)
    requires Partly(ours, m, rest, now) && txid in rest
    ensures WriteThrows(now, txid, rest[txid]) ==> BatchThrows(ours, m)
  {
    assert Get(now, txid) == Get(ours, txid);
    assert m[txid] == rest[txid];
  }

  lemma PartlyEnds(ours: EntryMap, m: EntryMap, now: EntryMap)
    requires Partly(ours, m, map[], now)
    ensures now == MergeEntries(ours, m) && !BatchThrows(ours, m)
  {
    forall t ensures Get(now, t) == Get(MergeEntries(ours, m), t) {
      assert Get(MergeEntries(ours, m), t) == MergedEntry(ours, m, t);
    }
    SameLookup(now, MergeEntries(ours, m));
  }

  datatype Base = OnDb(db: CoinsDb) | OnCache(cache: CoinsCache)

  class CoinsCache {
    const base: Base
    /** This cache and every cache below it. */
    ghost const layers: set<CoinsCache>
    ghost const bottom: CoinsDb

    var cacheCoins: EntryMap
    var hashBlock: Hash
    var hasModifier: bool

    ghost predicate Valid()
      decreases layers
    {
      && this in layers
      && match base
         case OnDb(db) => layers == {this} && bottom == db
         case OnCache(c) => layers == {this} + c.layers && this !in c.layers && bottom == c.bottom && c.layers < layers && c.Valid()
    }

    ghost function Model(): (v: View)
      requires Valid()
      reads layers, bottom
      ensures v.Cache?
      decreases layers
    {
      Cache(cacheCoins, hashBlock, match base case OnDb(db) => db.Model() case OnCache(c) => c.Model())
    }

    constructor OverDb(db: CoinsDb)
      ensures Valid() && base == OnDb(db)
      ensures Model() == Cache(map[], 0, db.Model()) && !hasModifier && layers == {this}
    {
      base := OnDb(db);
      layers, bottom := {this}, db;
      cacheCoins, hashBlock, hasModifier := map[], 0, false;
    }

    constructor Over(c: CoinsCache)
      requires c.Valid()
      ensures Valid() && base == OnCache(c)
      ensures Model() == Cache(map[], 0, c.Model()) && !hasModifier && layers == {this} + c.layers
    {
      base := OnCache(c);
      layers, bottom := {this} + c.layers, c.bottom;
      cacheCoins, hashBlock, hasModifier := map[], 0, false;
    }

    method GetFromBase(txid: Txid) returns (r: Option<Coins>)
      requires Valid()
      modifies (layers - {this})`cacheCoins
      ensures Model() == Cache(cacheCoins, hashBlock, Fetch(old(Model().base), txid))
      ensures r == CoinsView.GetCoins(old(Model().base), txid)
      decreases layers, 0
    {
      match base
      case OnDb(db) => r := Get(db.coins, txid);
      case OnCache(c) => r := c.GetCoins(txid);
    }

    /** `FetchCoins` and, through it, `GetCoins` and `AccessCoins`. */
    method GetCoins(txid: Txid) returns (r: Option<Coins>)
      requires Valid()
      modifies layers`cacheCoins
      ensures Model() == Fetch(old(Model()), txid)
      ensures r == CoinsView.GetCoins(old(Model()), txid)
      decreases layers, 1
    {
      if txid in cacheCoins {
        return Some(cacheCoins[txid].coins);
      }
      r := GetFromBase(txid);
      if r.Some? {
        cacheCoins := cacheCoins[txid := Entry(r.value, false, r.value.IsPruned())];
      }
    }

    method GetBestBlock() returns (r: Hash)
      requires Valid()
      modifies layers`hashBlock
      ensures Model() == FetchBest(old(Model())) && r == BestBlock(old(Model()))
      decreases layers
    {
      if hashBlock == 0 {
        match base
        case OnDb(db) => hashBlock := db.best;
        case OnCache(c) => hashBlock := c.GetBestBlock();
      }
      r := hashBlock;
    }

    method ModifyCoins(txid: Txid) returns (m: CoinsModifier)
      requires Valid() && !hasModifier
      modifies layers`cacheCoins, this`hasModifier
      ensures Model() == OpenModify(old(Model()), txid)
      ensures hasModifier && m.cache == this && m.txid == txid && txid in cacheCoins
    {
      if txid in cacheCoins {
        cacheCoins := cacheCoins[txid := cacheCoins[txid].(fDirty := true)];
      } else {
        var r := GetFromBase(txid);
        if r.None? {
          cacheCoins := cacheCoins[txid := Entry(EMPTY_COINS, true, true)];
        } else {
          cacheCoins := cacheCoins[txid := Entry(r.value, true, r.value.IsPruned())];
        }
      }
      m := new CoinsModifier(this, txid);
    }

    /** `None` is the `logic_error`. */
    method ModifyNewCoins(txid: Txid, coinbase: bool) returns (m: CoinsModifier?)
      requires Valid() && !hasModifier
      modifies this`cacheCoins, this`hasModifier
      ensures m == null <==> NewCoinsThrows(old(cacheCoins), txid, coinbase)
      ensures m == null ==> Model() == old(Model()) && !hasModifier
      ensures m != null ==> Model() == OpenNew(old(Model()), txid, coinbase)
      ensures m != null ==> hasModifier && m.cache == this && m.txid == txid && txid in cacheCoins
    {
      var e := if txid in cacheCoins then cacheCoins[txid] else Entry(EMPTY_COINS, false, false);
      if !coinbase {
        if !e.coins.IsPruned() {
          return null;
        }
        if !e.fDirty {
          e := e.(fFresh := true);
        }
      }
      cacheCoins := cacheCoins[txid := e.(coins := EMPTY_COINS, fDirty := true)];
      m := new CoinsModifier(this, txid);
    }

    /** The body of the `BatchWrite` loop. */
    method WriteOne(txid: Txid, child: Entry) returns (threw: bool)
      modifies this`cacheCoins
      ensures threw <==> WriteThrows(old(cacheCoins), txid, child)
      ensures !threw ==> Get(cacheCoins, txid) == WriteEntry(Get(old(cacheCoins), txid), child)
      ensures forall t | t != txid :: Get(cacheCoins, t) == Get(old(cacheCoins), t)
    {
      if child.fDirty {
        if txid !in cacheCoins {
          if !(child.fFresh && child.coins.IsPruned()) {
            cacheCoins := cacheCoins[txid := Entry(child.coins, true, child.fFresh)];
          }
        } else {
          if child.fFresh && !cacheCoins[txid].coins.IsPruned() {
            return true;
          }
          if cacheCoins[txid].fFresh && child.coins.IsPruned() {
            cacheCoins := cacheCoins - {txid};
          } else {
            cacheCoins := cacheCoins[txid := Entry(child.coins, true, cacheCoins[txid].fFresh)];
          }
        }
      }
      threw := false;
    }

    /** The loop of `CCoinsViewCache::BatchWrite`, entries in any order. */
    method WriteAll(mapCoins: EntryMap) returns (threw: bool)
      modifies this`cacheCoins
      ensures threw <==> BatchThrows(old(cacheCoins), mapCoins)
      ensures !threw ==> cacheCoins == MergeEntries(old(cacheCoins), mapCoins)
    {
      ghost var ours := cacheCoins;
      var rest := mapCoins;
      while rest != map[]
        invariant Partly(ours, mapCoins, rest, cacheCoins)
        decreases |rest|
      {
        var txid :| txid in rest;
        ghost var now := cacheCoins;
        PartlyThrows(ours, mapCoins, rest, now, txid);
        threw := WriteOne(txid, rest[txid]);
        if threw {
          return;
        }
        PartlyStep(ours, mapCoins, rest, now, txid, cacheCoins);
        rest := rest - {txid};
      }
      PartlyEnds(ours, mapCoins, cacheCoins);
      threw := false;
    }

    method BatchWrite(mapCoins: EntryMap, hashBlockIn: Hash) returns (threw: bool)
      requires Valid() && !hasModifier
      modifies this`cacheCoins, this`hashBlock
      ensures threw <==> WriteFails(old(Model()), mapCoins)
      ensures !threw ==> Model() == CoinsView.BatchWrite(old(Model()), mapCoins, hashBlockIn)
    {
      threw := WriteAll(mapCoins);
      if !threw {
        hashBlock := hashBlockIn;
      }
    }

    method Flush() returns (threw: bool)
      requires Valid() && !hasModifier
      requires base.OnCache? ==> !base.cache.hasModifier
      modifies layers`cacheCoins, layers`hashBlock, bottom
      ensures threw <==> WriteFails(old(Model().base), old(cacheCoins))
      ensures !threw ==> Model() == CoinsView.Flush(old(Model()))
    {
      match base {
        case OnDb(db) => db.BatchWrite(cacheCoins, hashBlock); threw := false;
        case OnCache(c) => threw := c.BatchWrite(cacheCoins, hashBlock);
      }
      if !threw {
        cacheCoins := map[];
      }
    }

    method Uncache(txid: Txid)
      requires Valid()
      modifies this`cacheCoins
      ensures Model() == CoinsView.Uncache(old(Model()), txid)
    {
      if txid in cacheCoins && !cacheCoins[txid].fDirty && !cacheCoins[txid].fFresh {
        cacheCoins := cacheCoins - {txid};
      }
    }
  }

  class CoinsModifier {
    const cache: CoinsCache
    const txid: Txid

    constructor (cache: CoinsCache, txid: Txid)
      requires !cache.hasModifier
      modifies cache`hasModifier
      ensures this.cache == cache && this.txid == txid && cache.hasModifier
    {
      this.cache, this.txid := cache, txid;
      new;
      cache.hasModifier := true;
    }

    method Edit(coins: Coins)
      requires cache.Valid() && cache.hasModifier && txid in cache.cacheCoins
      modifies cache`cacheCoins
      ensures cache.Model() == Assign(old(cache.Model()), txid, coins)
    {
      cache.cacheCoins := cache.cacheCoins[txid := cache.cacheCoins[txid].(coins := coins)];
    }

    /** The destructor. */
    method Close()
      requires cache.Valid() && cache.hasModifier && txid in cache.cacheCoins
      modifies cache`cacheCoins, cache`hasModifier
      ensures cache.Model() == Release(old(cache.Model()), txid)
      ensures !cache.hasModifier
    {
      cache.hasModifier := false;
      var e := cache.cacheCoins[txid];
      var c := Cleanup(e.coins);
      cache.cacheCoins := cache.cacheCoins[txid := e.(coins := c)];
      if e.fFresh && c.IsPruned() {
        cache.cacheCoins := cache.cacheCoins - {txid};
      }
    }
  }
}
