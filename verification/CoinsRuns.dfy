/**
 * Whole runs of a coins stack. The reference is one plain map of live coins per layer;
 * every permitted run of the caches stays equal to it at every layer and never throws.
 */
module CoinsRuns {
  import opened Options
  import opened CoinsRecord
  import opened CoinsView

  datatype Op =
    | Read(txid: Txid)                          // GetCoins, AccessCoins, HaveCoins
    | Modify(txid: Txid)                        // ModifyCoins
    | ModifyNew(txid: Txid, coinbase: bool)     // ModifyNewCoins
    | Edit(coins: Coins)                        // a write through the open modifier
    | Close                                     // ~CCoinsModifier
    | Drop(txid: Txid)                          // Uncache
    | Flush
    | Push                                      // a new cache over the current top
    | Pop                                       // the top cache is destroyed, unflushed changes are forgotten
    | SetBest(hash: Hash)
    | GetBest

  /** The caches, and the txid of the modifier open on the top one. */
  datatype State = State(view: View, open: Option<Txid>)

  /** One operation; `None` is a failed assert or a thrown `logic_error`. */
  function Step(s: State, op: Op): Option<State>
    requires s.view.Cache?
    requires s.open.Some? ==> s.open.value in s.view.entries
  {
    var v := s.view;
    match op
    case Read(txid) => Some(s.(view := Fetch(v, txid)))
    case Modify(txid) =>
      if s.open.Some? then None else Some(State(OpenModify(v, txid), Some(txid)))
    case ModifyNew(txid, coinbase) =>
      if s.open.Some? || NewCoinsThrows(v.entries, txid, coinbase) then None
      else Some(State(OpenNew(v, txid, coinbase), Some(txid)))
    case Edit(coins) =>
      if s.open.None? then None else Some(s.(view := Assign(v, s.open.value, coins)))
    case Close =>
      if s.open.None? then None else Some(State(Release(v, s.open.value), None))
    case Drop(txid) => Some(s.(view := Uncache(v, txid)))
    case Flush =>
      if s.open.Some? || WriteFails(v.base, v.entries) then None else Some(s.(view := CoinsView.Flush(v)))
    case Push => if s.open.Some? then None else Some(s.(view := Cache(map[], 0, v)))
    case Pop => if s.open.Some? || v.base.Db? then None else Some(s.(view := v.base))
    case SetBest(hash) => Some(s.(view := v.(hashBlock := hash)))
    case GetBest => Some(s.(view := FetchBest(v)))
  }

  // ----- the reference -----

  datatype Flat = FlatDb(coins: map<Txid, Coins>) | FlatCache(coins: map<Txid, Coins>, below: Flat)

  datatype Ref = Ref(flat: Flat, open: Option<Txid>)

  function Put(m: map<Txid, Coins>, txid: Txid, c: Coins): (r: map<Txid, Coins>)
    ensures forall t :: Get(r, t) == if t == txid then Live(c) else Get(m, t)
  {
    if c.IsPruned() then m - {txid} else m[txid := c]
  }

  function WithTop(flat: Flat, coins: map<Txid, Coins>): Flat {
    match flat
    case FlatDb(_) => FlatDb(coins)
    case FlatCache(_, below) => FlatCache(coins, below)
  }

  /**
   * The caller's side of the interface, stated on the reference alone: one modifier at a time, and
   * BIP 30 for `ModifyNewCoins` of anything but a coinbase (the txid has no live coins).
   */
  predicate Permitted(a: Ref, op: Op) {
    match op
    case Read(_) => true
    case Drop(_) => true
    case SetBest(_) => true
    case GetBest => true
    case Modify(_) => a.open.None?
    case ModifyNew(txid, coinbase) => a.open.None? && (coinbase || txid !in a.flat.coins)
    case Edit(_) => a.open.Some?
    case Close => a.open.Some?
    case Flush => a.open.None?
    case Push => a.open.None?
    case Pop => a.open.None? && a.flat.FlatCache? && a.flat.below.FlatCache?
  }

  function RefStep(a: Ref, op: Op): Ref
    requires a.flat.FlatCache? && Permitted(a, op)
  {
    var top := a.flat.coins;
    match op
    case Read(_) => a
    case Drop(_) => a
    case SetBest(_) => a
    case GetBest => a
    case Modify(txid) => a.(open := Some(txid))
    case ModifyNew(txid, _) => Ref(FlatCache(top - {txid}, a.flat.below), Some(txid))
    case Edit(coins) => Ref(FlatCache(Put(top, a.open.value, coins), a.flat.below), a.open)
    case Close =>
      Ref(FlatCache(if a.open.value in top then top[a.open.value := Cleaned(top[a.open.value])] else top, a.flat.below),
          None)
    case Flush => a.(flat := FlatCache(top, WithTop(a.flat.below, top)))
    case Push => a.(flat := FlatCache(top, a.flat))
    case Pop => a.(flat := a.flat.below)
  }

  // ----- refinement -----

  /** Layer by layer, the caches show exactly the reference's live coins. */
  ghost predicate Agrees(v: View, flat: Flat) {
    && (forall txid :: LiveAt(v, txid) == Get(flat.coins, txid))
    && match v
       case Db(_, _) => flat.FlatDb?
       case Cache(_, _, base) => flat.FlatCache? && Agrees(base, flat.below)
  }

  ghost predicate Refines(s: State, a: Ref) {
    && s.view.Cache? && WellFlagged(s.view) && Agrees(s.view, a.flat)
    && s.open == a.open
    && (s.open.Some? ==> s.open.value in s.view.entries && s.view.entries[s.open.value].fDirty)
  }

  lemma {:induction false} FetchBestAgrees(v: View, flat: Flat)
    requires Agrees(v, flat)
    ensures Agrees(FetchBest(v), flat)
  {
    FetchBestKeeps(v);
    if v.Cache? {
      FetchBestAgrees(v.base, flat.below);
      forall t ensures LiveAt(FetchBest(v), t) == Get(flat.coins, t) {
        assert LiveAt(v, t) == Get(flat.coins, t);
      }
    }
  }

  lemma {:induction false} FetchAgrees(v: View, txid: Txid, flat: Flat)
    requires WellFlagged(v) && Agrees(v, flat)
    ensures Agrees(Fetch(v, txid), flat)
  {
    FetchKeeps(v, txid);
    if v.Cache? {
      FetchAgrees(v.base, txid, flat.below);
    }
  }

  lemma FlushAgrees(v: View, flat: Flat)
    requires v.Cache? && WellFlagged(v) && Agrees(v, flat)
    ensures Agrees(CoinsView.Flush(v), FlatCache(flat.coins, WithTop(flat.below, flat.coins)))
  {
    FlushKeeps(v);
    forall txid ensures LiveAt(CoinsView.Flush(v).base, txid) == Get(flat.coins, txid) {
      assert LiveAt(v, txid) == LiveAt(CoinsView.Flush(v).base, txid);
    }
    assert Agrees(CoinsView.Flush(v).base, WithTop(flat.below, flat.coins));
  }

  /** Only the entry of `txid` differs between the two tops. */
  lemma TopEdit(v: View, v': View, txid: Txid, flat: Flat, top: map<Txid, Coins>)
    requires v.Cache? && v'.Cache? && v.base == v'.base && WellFlagged(v) && Agrees(v, flat)
    requires v'.entries - {txid} == v.entries - {txid}
    requires txid in v'.entries ==> EntryOk(v'.entries[txid], LiveAt(v.base, txid))
    requires LiveAt(v', txid) == Get(top, txid)
    requires top - {txid} == flat.coins - {txid}
    ensures WellFlagged(v') && Agrees(v', FlatCache(top, flat.below))
  {
    forall t | t != txid
      ensures t in v'.entries <==> t in v.entries
      ensures t in v.entries ==> v'.entries[t] == v.entries[t]
      ensures Get(top, t) == Get(flat.coins, t)
    {
      assert t in v'.entries <==> t in v'.entries - {txid};
      assert t in v.entries <==> t in v.entries - {txid};
      assert t in top <==> t in top - {txid};
      assert t in flat.coins <==> t in flat.coins - {txid};
      assert t in v.entries ==> v'.entries[t] == (v'.entries - {txid})[t] == (v.entries - {txid})[t];
      assert t in top ==> top[t] == (top - {txid})[t] == (flat.coins - {txid})[t];
    }
    forall t ensures LiveAt(v', t) == Get(top, t) {
      if t != txid {
        assert LiveAt(v, t) == Get(flat.coins, t);
      }
    }
  }

  lemma StepRefines(s: State, a: Ref, op: Op)
    requires Refines(s, a) && Permitted(a, op)
    ensures Step(s, op).Some? && Refines(Step(s, op).value, RefStep(a, op))
  {
    var v := s.view;
    match op
    case Read(txid) => FetchKeeps(v, txid); FetchAgrees(v, txid, a.flat);
    case Modify(txid) =>
      OpenModifyKeeps(v, txid);
      FetchAgrees(v.base, txid, a.flat.below);
      FetchKeeps(v.base, txid);
      forall t ensures LiveAt(OpenModify(v, txid), t) == Get(a.flat.coins, t) {
        assert LiveAt(v, t) == Get(a.flat.coins, t);
      }
    case ModifyNew(txid, coinbase) =>
      assert LiveAt(v, txid) == Get(a.flat.coins, txid);
      assert txid in v.entries ==> EntryOk(v.entries[txid], LiveAt(v.base, txid));
      TopEdit(v, OpenNew(v, txid, coinbase), txid, a.flat, a.flat.coins - {txid});
    case Edit(coins) =>
      var txid := s.open.value;
      TopEdit(v, Assign(v, txid, coins), txid, a.flat, Put(a.flat.coins, txid, coins));
    case Close =>
      var txid := s.open.value;
      assert LiveAt(v, txid) == Get(a.flat.coins, txid);
      TopEdit(v, Release(v, txid), txid, a.flat, RefStep(a, op).flat.coins);
    case Drop(txid) =>
      assert LiveAt(v, txid) == Get(a.flat.coins, txid);
      TopEdit(v, Uncache(v, txid), txid, a.flat, a.flat.coins);
    case Flush => FlushKeeps(v); FlushAgrees(v, a.flat);
    case Push =>
      forall t ensures LiveAt(Cache(map[], 0, v), t) == Get(a.flat.coins, t) {
        assert LiveAt(v, t) == Get(a.flat.coins, t);
      }
    case Pop => assert Agrees(v.base, a.flat.below);
    case SetBest(hash) =>
      forall t ensures LiveAt(v.(hashBlock := hash), t) == Get(a.flat.coins, t) {
        assert LiveAt(v, t) == Get(a.flat.coins, t);
      }
    case GetBest => FetchBestKeeps(v); FetchBestAgrees(v, a.flat);
  }

  ghost predicate AllPermitted(a: Ref, ops: seq<Op>)
    decreases |ops|
  {
    ops == [] || (a.flat.FlatCache? && Permitted(a, ops[0]) && AllPermitted(RefStep(a, ops[0]), ops[1..]))
  }

  ghost function RefRun(a: Ref, ops: seq<Op>): Ref
    requires AllPermitted(a, ops)
    decreases |ops|
  {
    if ops == [] then a else RefRun(RefStep(a, ops[0]), ops[1..])
  }

  ghost predicate Ready(s: State) {
    s.view.Cache? && (s.open.Some? ==> s.open.value in s.view.entries)
  }

  ghost function Run(s: State, ops: seq<Op>): Option<State>
    decreases |ops|
  {
    if ops == [] then Some(s)
    else if !Ready(s) then None
    else match Step(s, ops[0])
      case None => None
      case Some(s') => Run(s', ops[1..])
  }

  /** Every permitted run, of any length and over any number of layers, equals the reference run. */
  lemma {:induction false} RunRefines(s: State, a: Ref, ops: seq<Op>)
    requires Refines(s, a) && AllPermitted(a, ops)
    ensures Run(s, ops).Some? && Refines(Run(s, ops).value, RefRun(a, ops))
    decreases |ops|
  {
    if ops != [] {
      StepRefines(s, a, ops[0]);
      RunRefines(Step(s, ops[0]).value, RefStep(a, ops[0]), ops[1..]);
    }
  }

  function LiveRecords(db: map<Txid, Coins>): (r: map<Txid, Coins>)
    ensures forall t :: Get(r, t) == LiveAt(Db(db, 0), t)
  {
    map t | t in db && !db[t].IsPruned() :: db[t]
  }

  /**
   * From one empty cache over any database: no permitted run throws or fails an assert, every answer
   * of the caches is the reference's answer, and the flags keep their meaning throughout.
   */
  lemma CachesAreTransparent(db: map<Txid, Coins>, best: Hash, ops: seq<Op>, txid: Txid)
    requires
      var flat := LiveRecords(db);
      AllPermitted(Ref(FlatCache(flat, FlatDb(flat)), None), ops)
    ensures
      var flat := LiveRecords(db);
      var r := Run(State(Cache(map[], 0, Db(db, best)), None), ops);
      && r.Some? && WellFlagged(r.value.view)
      && LiveAt(r.value.view, txid) == Get(RefRun(Ref(FlatCache(flat, FlatDb(flat)), None), ops).flat.coins, txid)
  {
    var flat := LiveRecords(db);
    var v := Cache(map[], 0, Db(db, best));
    forall t
      ensures LiveAt(Db(db, best), t) == Get(flat, t) && LiveAt(v, t) == Get(flat, t)
    {
      assert Get(flat, t) == LiveAt(Db(db, 0), t);
    }
    RunRefines(State(v, None), Ref(FlatCache(flat, FlatDb(flat)), None), ops);
  }

  /**
   * BIP 30 is exactly what `ModifyNewCoins` needs. On a well-flagged cache it either throws or
   * leaves a truthful FRESH flag if and only if the new transaction is a coinbase,
   * the txid has no live coins, or the live coins are in this very cache.
   */
  lemma NewCoinsNeedsBip30(v: View, txid: Txid, coinbase: bool)
    requires v.Cache? && WellFlagged(v)
    ensures NewCoinsThrows(v.entries, txid, coinbase) || WellFlagged(OpenNew(v, txid, coinbase)) <==>
              coinbase || txid in v.entries || LiveAt(v, txid) == None
  {
    var v' := OpenNew(v, txid, coinbase);
    assert LiveAt(v, txid) == if txid in v.entries then Live(v.entries[txid].coins) else LiveAt(v.base, txid);
    assert txid in v.entries ==> EntryOk(v.entries[txid], LiveAt(v.base, txid));
    if !coinbase && txid !in v.entries && LiveAt(v, txid) != None {
      assert !EntryOk(v'.entries[txid], LiveAt(v'.base, txid));
    } else if !NewCoinsThrows(v.entries, txid, coinbase) {
      forall t | t in v'.entries ensures EntryOk(v'.entries[t], LiveAt(v'.base, t)) {
        if t != txid { assert EntryOk(v.entries[t], LiveAt(v.base, t)); }
      }
    }
  }
}
