/**
 * The address manager's state as a value (src/addrman.h), its primitive moves
 * (src/addrman.cpp:81-188) and the invariant its authors wrote down as `Check_`.
 */
module AddrManModel {
  import opened Options

  type Ip = nat
  /** The service bits that are set. */
  type Services = set<nat>
  datatype Service = Service(ip: Ip, port: nat)
  datatype Address = Address(service: Service, nServices: Services, nTime: nat)

  const BUCKETS_PER_ADDRESS := 8

  /** Table sizes, and the keyed hashes as unknown functions. */
  datatype Hashing = Hashing(nNewBuckets: nat, nTriedBuckets: nat, nBucketSize: nat,
                             newHash: (Ip, Ip) -> nat, triedHash: Service -> nat, posHash: (Service, bool, nat) -> nat) {
    predicate Ok() { nNewBuckets > 0 && nTriedBuckets > 0 && nBucketSize > 0 }

    function NewBucket(ip: Ip, src: Ip): (b: nat)
      requires Ok()
      ensures b < nNewBuckets
    {
      newHash(ip, src) % nNewBuckets
    }

    function TriedBucket(a: Service): (b: nat)
      requires Ok()
      ensures b < nTriedBuckets
    {
      triedHash(a) % nTriedBuckets
    }

    function Position(a: Service, fNew: bool, bucket: nat): (i: nat)
      requires Ok()
      ensures i < nBucketSize
    {
      posHash(a, fNew, bucket) % nBucketSize
    }

    function NewSlotIn(a: Service, bucket: nat): Slot
      requires Ok()
    {
      Slot(bucket, Position(a, true, bucket))
    }

    function NewSlot(a: Service, src: Ip): Slot
      requires Ok()
    {
      NewSlotIn(a, NewBucket(a.ip, src))
    }

    function TriedSlot(a: Service): Slot
      requires Ok()
    {
      var b := TriedBucket(a);
      Slot(b, Position(a, false, b))
    }
  }

  datatype Slot = Slot(bucket: nat, pos: nat)
  type Table = map<Slot, int>

  datatype Stats = Stats(service: Service, nServices: Services, nTime: nat, source: Ip,
                         nLastSuccess: int, nLastTry: int, nLastCountAttempt: int, nAttempts: int) {
    predicate IsTerrible(nNow: int) {
      if nLastTry != 0 && nLastTry >= nNow - 60 then false
      else if nTime > nNow + 10 * 60 then true
      else if nTime == 0 || nNow - nTime > 30 * 24 * 60 * 60 then true
      else if nLastSuccess == 0 && nAttempts >= 3 then true
      else nNow - nLastSuccess > 7 * 24 * 60 * 60 && nAttempts >= 10
    }
  }

  datatype Info = Info(stats: Stats, nRefCount: int, fInTried: bool, nRandomPos: int) {
    function Ip(): Ip { stats.service.ip }
  }

  datatype State = State(h: Hashing, nIdCount: int, mapInfo: map<int, Info>, mapAddr: map<Ip, int>, vRandom: seq<int>,
                         nTried: int, vvTried: Table, nNew: int, vvNew: Table, nLastGood: int)

  function SlotsOf(t: Table, id: int): set<Slot> {
    set sl | sl in t && t[sl] == id
  }

  function Recount(m: map<int, Info>, id: int, n: int): map<int, Info>
    requires id in m
  {
    m[id := m[id].(nRefCount := n)]
  }

  lemma RecountAgain(m: map<int, Info>, id: int, n: int, k: int)
    requires id in m
    ensures Recount(Recount(m, id, n), id, k) == Recount(m, id, k)
  {
  }

  function NewIds(s: State): set<int> {
    set id | id in s.mapInfo && !s.mapInfo[id].fInTried
  }

  function TriedIds(s: State): set<int> {
    set id | id in s.mapInfo && s.mapInfo[id].fInTried
  }

  // ----- the invariant -----

  /** What `Check_` asks of one entry: its address, its random position, its slots. */
  ghost predicate IdOk(s: State, id: int)
    requires s.h.Ok()
  {
    && id in s.mapInfo
    && var e := s.mapInfo[id];
    && 0 <= id < s.nIdCount
    && Get(s.mapAddr, e.Ip()) == Some(id)
    && 0 <= e.nRandomPos < |s.vRandom| && s.vRandom[e.nRandomPos] == id
    && if e.fInTried then e.nRefCount == 0 && Get(s.vvTried, s.h.TriedSlot(e.stats.service)) == Some(id)
       else e.nRefCount == |SlotsOf(s.vvNew, id)| <= BUCKETS_PER_ADDRESS
  }

  ghost predicate IpOk(s: State, ip: Ip) {
    ip in s.mapAddr && s.mapAddr[ip] in s.mapInfo && s.mapInfo[s.mapAddr[ip]].Ip() == ip
  }

  ghost predicate PosOk(s: State, i: int) {
    0 <= i < |s.vRandom| && s.vRandom[i] in s.mapInfo && s.mapInfo[s.vRandom[i]].nRandomPos == i
  }

  ghost predicate TriedSlotOk(s: State, sl: Slot)
    requires s.h.Ok()
  {
    && sl in s.vvTried && s.vvTried[sl] in s.mapInfo
    && var e := s.mapInfo[s.vvTried[sl]];
    e.fInTried && sl == s.h.TriedSlot(e.stats.service)
  }

  ghost predicate NewSlotOk(s: State, sl: Slot)
    requires s.h.Ok()
  {
    && sl in s.vvNew && s.vvNew[sl] in s.mapInfo
    && var e := s.mapInfo[s.vvNew[sl]];
    !e.fInTried && sl.bucket < s.h.nNewBuckets && sl == s.h.NewSlotIn(e.stats.service, sl.bucket)
  }

  /** The counters are exact, apart from entries in `limbo` that are between the two tables. */
  ghost predicate Counted(s: State, limbo: set<int>) {
    && s.nTried == |TriedIds(s)| && s.nNew == |NewIds(s)| - |limbo|
    && limbo <= NewIds(s) && forall id | id in limbo :: id in s.mapInfo && s.mapInfo[id].nRefCount == 0
  }

  /** `mapInfo`, `mapAddr`, `vRandom` and both tables are consistent. */
  ghost predicate Wired(s: State) {
    && s.h.Ok() && s.nIdCount >= 0
    && (forall id {:trigger IdOk(s, id)} | id in s.mapInfo :: IdOk(s, id))
    && (forall ip {:trigger IpOk(s, ip)} | ip in s.mapAddr :: IpOk(s, ip))
    && (forall i {:trigger PosOk(s, i)} | 0 <= i < |s.vRandom| :: PosOk(s, i))
    && (forall sl {:trigger TriedSlotOk(s, sl)} | sl in s.vvTried :: TriedSlotOk(s, sl))
    && (forall sl {:trigger NewSlotOk(s, sl)} | sl in s.vvNew :: NewSlotOk(s, sl))
  }

  ghost predicate Referenced(s: State, except: set<int>) {
    forall id | id in s.mapInfo && !s.mapInfo[id].fInTried && id !in except :: s.mapInfo[id].nRefCount >= 1
  }

  ghost predicate Linked(s: State, limbo: set<int>, except: set<int>) {
    Wired(s) && Counted(s, limbo) && Referenced(s, except)
  }

  ghost predicate Inv(s: State) {
    Linked(s, {}, {})
  }

  /** The part of `Check_` about times. */
  ghost predicate TimesOk(s: State) {
    forall id | id in s.mapInfo ::
      && s.mapInfo[id].stats.nLastTry >= 0 && s.mapInfo[id].stats.nLastSuccess >= 0
      && (s.mapInfo[id].fInTried ==> s.mapInfo[id].stats.nLastSuccess != 0)
  }

  // ----- the state without ids -----

  /** Everything but ids, reference counts, counters and random order. */
  datatype Abs = Abs(infos: map<Ip, Stats>, inNew: map<Slot, Ip>, inTried: map<Slot, Ip>, nLastGood: int)

  function StatsAt(s: State, ip: Ip): Option<Stats> {
    if ip in s.mapAddr && s.mapAddr[ip] in s.mapInfo then Some(s.mapInfo[s.mapAddr[ip]].stats) else None
  }

  function IpIn(s: State, t: Table, sl: Slot): Option<Ip> {
    if sl in t && t[sl] in s.mapInfo then Some(s.mapInfo[t[sl]].Ip()) else None
  }

  function Abstract(s: State): Abs {
    Abs(map ip | ip in s.mapAddr && s.mapAddr[ip] in s.mapInfo :: s.mapInfo[s.mapAddr[ip]].stats,
        map sl | sl in s.vvNew && s.vvNew[sl] in s.mapInfo :: s.mapInfo[s.vvNew[sl]].Ip(),
        map sl | sl in s.vvTried && s.vvTried[sl] in s.mapInfo :: s.mapInfo[s.vvTried[sl]].Ip(),
        s.nLastGood)
  }

  /** `a` is what `s` says once ids are forgotten. */
  ghost predicate Shows(s: State, a: Abs) {
    && (forall ip {:trigger StatsAt(s, ip)} :: StatsAt(s, ip) == Get(a.infos, ip))
    && (forall sl {:trigger IpIn(s, s.vvNew, sl)} :: IpIn(s, s.vvNew, sl) == Get(a.inNew, sl))
    && (forall sl {:trigger IpIn(s, s.vvTried, sl)} :: IpIn(s, s.vvTried, sl) == Get(a.inTried, sl))
    && s.nLastGood == a.nLastGood
  }

  lemma AbstractStats(s: State, ip: Ip)
    ensures Get(Abstract(s).infos, ip) == StatsAt(s, ip)
  {
  }

  lemma AbstractNew(s: State, sl: Slot)
    ensures Get(Abstract(s).inNew, sl) == IpIn(s, s.vvNew, sl)
  {
  }

  lemma AbstractTried(s: State, sl: Slot)
    ensures Get(Abstract(s).inTried, sl) == IpIn(s, s.vvTried, sl)
  {
  }

  lemma AbstractShows(s: State)
    ensures Shows(s, Abstract(s))
  {
    forall ip ensures StatsAt(s, ip) == Get(Abstract(s).infos, ip) { AbstractStats(s, ip); }
    forall sl ensures IpIn(s, s.vvNew, sl) == Get(Abstract(s).inNew, sl) { AbstractNew(s, sl); }
    forall sl ensures IpIn(s, s.vvTried, sl) == Get(Abstract(s).inTried, sl) { AbstractTried(s, sl); }
  }

  lemma ShowsIsUnique(s: State, a: Abs)
    requires Shows(s, a)
    ensures Abstract(s) == a
  {
    AbstractShows(s);
    var b := Abstract(s);
    forall ip ensures Get(b.infos, ip) == Get(a.infos, ip) { assert StatsAt(s, ip) == Get(a.infos, ip); }
    forall sl ensures Get(b.inNew, sl) == Get(a.inNew, sl) { assert IpIn(s, s.vvNew, sl) == Get(a.inNew, sl); }
    forall sl ensures Get(b.inTried, sl) == Get(a.inTried, sl) { assert IpIn(s, s.vvTried, sl) == Get(a.inTried, sl); }
    SameLookup(b.infos, a.infos);
    SameLookup(b.inNew, a.inNew);
    SameLookup(b.inTried, a.inTried);
  }

  // ----- primitive moves -----

  function NewStats(addr: Address, source: Ip): Stats {
    Stats(addr.service, addr.nServices, addr.nTime, source, 0, 0, 0, 0)
  }

  function Create(s: State, stats: Stats): State {
    var id := s.nIdCount;
    s.(nIdCount := id + 1,
       mapInfo := s.mapInfo[id := Info(stats, 0, false, |s.vRandom|)],
       mapAddr := s.mapAddr[stats.service.ip := id],
       vRandom := s.vRandom + [id])
  }

  function Swap(s: State, i: int, j: int): State
    requires 0 <= i < |s.vRandom| && 0 <= j < |s.vRandom|
    requires s.vRandom[i] in s.mapInfo && s.vRandom[j] in s.mapInfo
  {
    if i == j then s
    else
      var id1, id2 := s.vRandom[i], s.vRandom[j];
      var m1 := s.mapInfo[id1 := s.mapInfo[id1].(nRandomPos := j)];
      s.(mapInfo := m1[id2 := m1[id2].(nRandomPos := i)], vRandom := s.vRandom[i := id2][j := id1])
  }

  lemma SwapId(s: State, i: int, j: int, id: int)
    requires s.h.Ok() && PosOk(s, i) && PosOk(s, j) && IdOk(s, id)
    ensures IdOk(Swap(s, i, j), id)
  {
  }

  lemma SwapPos(s: State, i: int, j: int, k: int)
    requires PosOk(s, i) && PosOk(s, j) && PosOk(s, k)
    ensures PosOk(Swap(s, i, j), k)
  {
  }

  lemma SwapWired(s: State, i: int, j: int)
    requires PosOk(s, i) && PosOk(s, j) && Wired(s)
    ensures Wired(Swap(s, i, j))
  {
    var s' := Swap(s, i, j);
    forall id | id in s'.mapInfo ensures IdOk(s', id) { assert IdOk(s, id); SwapId(s, i, j, id); }
    forall ip | ip in s'.mapAddr ensures IpOk(s', ip) { assert IpOk(s, ip); }
    forall k | 0 <= k < |s'.vRandom| ensures PosOk(s', k) { assert PosOk(s, k); SwapPos(s, i, j, k); }
    forall sl | sl in s'.vvTried ensures TriedSlotOk(s', sl) { assert TriedSlotOk(s, sl); }
    forall sl | sl in s'.vvNew ensures NewSlotOk(s', sl) { assert NewSlotOk(s, sl); }
  }

  lemma SwapCounts(s: State, i: int, j: int, limbo: set<int>, except: set<int>)
    requires PosOk(s, i) && PosOk(s, j)
    ensures Counted(s, limbo) ==> Counted(Swap(s, i, j), limbo)
    ensures Referenced(s, except) ==> Referenced(Swap(s, i, j), except)
  {
    var s' := Swap(s, i, j);
    assert forall id :: id in NewIds(s) <==> id in NewIds(s');
    assert forall id :: id in TriedIds(s) <==> id in TriedIds(s');
    assert NewIds(s) == NewIds(s') && TriedIds(s) == TriedIds(s');
  }

  lemma SwapShows(s: State, i: int, j: int, a: Abs)
    requires PosOk(s, i) && PosOk(s, j) && Shows(s, a)
    ensures Shows(Swap(s, i, j), a)
  {
    var s' := Swap(s, i, j);
    forall ip ensures StatsAt(s', ip) == Get(a.infos, ip) { assert StatsAt(s, ip) == Get(a.infos, ip); }
    forall sl ensures IpIn(s', s'.vvNew, sl) == Get(a.inNew, sl) { assert IpIn(s, s.vvNew, sl) == Get(a.inNew, sl); }
    forall sl ensures IpIn(s', s'.vvTried, sl) == Get(a.inTried, sl) { assert IpIn(s, s.vvTried, sl) == Get(a.inTried, sl); }
  }

  lemma SwapKeeps(s: State, i: int, j: int, limbo: set<int>, except: set<int>)
    requires PosOk(s, i) && PosOk(s, j) && Linked(s, limbo, except)
    ensures Linked(Swap(s, i, j), limbo, except)
  {
    SwapWired(s, i, j);
    SwapCounts(s, i, j, limbo, except);
  }

  // Create: the entry is indexed, holds no slot yet and is not counted yet.

  lemma FreshId(s: State)
    requires Wired(s)
    ensures s.nIdCount !in s.mapInfo
  {
    forall id | id in s.mapInfo ensures id != s.nIdCount { assert IdOk(s, id); }
  }

  lemma CreateWired(s: State, stats: Stats)
    requires Wired(s) && stats.service.ip !in s.mapAddr
    ensures Wired(Create(s, stats))
  {
    var s', id0 := Create(s, stats), s.nIdCount;
    forall sl | sl in s.vvNew ensures s.vvNew[sl] != id0 && NewSlotOk(s', sl) {
      assert NewSlotOk(s, sl);
      assert IdOk(s, s.vvNew[sl]);
    }
    forall sl | sl in s.vvTried ensures TriedSlotOk(s', sl) {
      assert TriedSlotOk(s, sl);
      assert IdOk(s, s.vvTried[sl]);
    }
    assert SlotsOf(s.vvNew, id0) == {};
    forall id | id in s'.mapInfo ensures IdOk(s', id) {
      if id != id0 { assert IdOk(s, id); }
    }
    forall ip | ip in s'.mapAddr ensures IpOk(s', ip) {
      if ip in s.mapAddr {
        assert IpOk(s, ip);
        assert IdOk(s, s.mapAddr[ip]);
      }
    }
    forall k | 0 <= k < |s'.vRandom| ensures PosOk(s', k) {
      if k < |s.vRandom| {
        assert PosOk(s, k);
        assert IdOk(s, s.vRandom[k]);
      }
    }
  }

  lemma CreateCounts(s: State, stats: Stats, limbo: set<int>, except: set<int>)
    requires s.nIdCount !in s.mapInfo && Counted(s, limbo) && Referenced(s, except)
    ensures Counted(Create(s, stats), limbo + {s.nIdCount}) && Referenced(Create(s, stats), except + {s.nIdCount})
  {
    var s', id0 := Create(s, stats), s.nIdCount;
    assert forall id :: id in NewIds(s') <==> id in NewIds(s) || id == id0;
    assert forall id :: id in TriedIds(s') <==> id in TriedIds(s);
    assert NewIds(s') == NewIds(s) + {id0} && TriedIds(s) == TriedIds(s');
    assert id0 !in limbo;
  }

  lemma CreateStats(s: State, stats: Stats, ip: Ip)
    requires ip in s.mapAddr ==> s.mapAddr[ip] != s.nIdCount
    ensures StatsAt(Create(s, stats), ip) == if ip == stats.service.ip then Some(stats) else StatsAt(s, ip)
  {
  }

  lemma CreateShows(s: State, stats: Stats, a: Abs)
    requires Wired(s) && stats.service.ip !in s.mapAddr && Shows(s, a)
    ensures Shows(Create(s, stats), a.(infos := a.infos[stats.service.ip := stats]))
  {
    var s', a' := Create(s, stats), a.(infos := a.infos[stats.service.ip := stats]);
    forall ip ensures StatsAt(s', ip) == Get(a'.infos, ip) {
      assert StatsAt(s, ip) == Get(a.infos, ip);
      if ip in s.mapAddr {
        assert IpOk(s, ip);
        assert IdOk(s, s.mapAddr[ip]);
      }
      CreateStats(s, stats, ip);
    }
    forall sl ensures IpIn(s', s.vvNew, sl) == Get(a.inNew, sl) {
      assert IpIn(s, s.vvNew, sl) == Get(a.inNew, sl);
      if sl in s.vvNew {
        assert NewSlotOk(s, sl);
        assert IdOk(s, s.vvNew[sl]);
      }
    }
    forall sl ensures IpIn(s', s.vvTried, sl) == Get(a.inTried, sl) {
      assert IpIn(s, s.vvTried, sl) == Get(a.inTried, sl);
      if sl in s.vvTried {
        assert TriedSlotOk(s, sl);
        assert IdOk(s, s.vvTried[sl]);
      }
    }
  }

  // Drop: the entry at the end of `vRandom` goes; it is in neither table.

  function Drop(s: State, id: int): State
    requires id in s.mapInfo && |s.vRandom| > 0
  {
    s.(vRandom := s.vRandom[..|s.vRandom| - 1], mapAddr := s.mapAddr - {s.mapInfo[id].Ip()},
       mapInfo := s.mapInfo - {id}, nNew := s.nNew - 1)
  }

  ghost predicate Droppable(s: State, id: int) {
    && id in s.mapInfo && !s.mapInfo[id].fInTried && s.mapInfo[id].nRefCount == 0
    && |s.vRandom| > 0 && s.vRandom[|s.vRandom| - 1] == id
  }

  lemma NoSlots(s: State, id: int, sl: Slot)
    requires s.h.Ok() && IdOk(s, id) && !s.mapInfo[id].fInTried && s.mapInfo[id].nRefCount == 0
    ensures sl in s.vvNew ==> s.vvNew[sl] != id
  {
    assert sl !in SlotsOf(s.vvNew, id);
  }

  lemma DropId(s: State, id: int, k: int)
    requires s.h.Ok() && Droppable(s, id) && IdOk(s, id) && IdOk(s, k) && k != id
    ensures IdOk(Drop(s, id), k)
  {
  }

  lemma DropWired(s: State, id: int)
    requires Wired(s) && Droppable(s, id)
    ensures Wired(Drop(s, id))
  {
    var s' := Drop(s, id);
    assert IdOk(s, id);
    assert PosOk(s, |s.vRandom| - 1);
    forall k | k in s'.mapInfo ensures IdOk(s', k) { assert IdOk(s, k); DropId(s, id, k); }
    forall ip | ip in s'.mapAddr ensures IpOk(s', ip) { assert IpOk(s, ip); }
    forall k | 0 <= k < |s'.vRandom| ensures PosOk(s', k) { assert PosOk(s, k); }
    forall sl | sl in s'.vvTried ensures TriedSlotOk(s', sl) { assert TriedSlotOk(s, sl); }
    forall sl | sl in s'.vvNew ensures NewSlotOk(s', sl) { assert NewSlotOk(s, sl); NoSlots(s, id, sl); }
  }

  lemma DropCounts(s: State, id: int, limbo: set<int>, except: set<int>)
    requires Droppable(s, id) && id !in limbo && Counted(s, limbo) && Referenced(s, except)
    ensures Counted(Drop(s, id), limbo) && Referenced(Drop(s, id), except)
  {
    var s' := Drop(s, id);
    assert forall k :: k in NewIds(s') <==> k in NewIds(s) && k != id;
    assert forall k :: k in TriedIds(s') <==> k in TriedIds(s);
    assert NewIds(s') == NewIds(s) - {id} && TriedIds(s') == TriedIds(s);
  }

  lemma DropShows(s: State, id: int, a: Abs)
    requires Wired(s) && Droppable(s, id) && Shows(s, a)
    ensures Shows(Drop(s, id), a.(infos := a.infos - {s.mapInfo[id].Ip()}))
  {
    var s', a' := Drop(s, id), a.(infos := a.infos - {s.mapInfo[id].Ip()});
    assert IdOk(s, id);
    forall ip ensures StatsAt(s', ip) == Get(a'.infos, ip) {
      assert StatsAt(s, ip) == Get(a.infos, ip);
      if ip in s.mapAddr { assert IpOk(s, ip); }
    }
    forall sl ensures IpIn(s', s'.vvNew, sl) == Get(a.inNew, sl) {
      assert IpIn(s, s.vvNew, sl) == Get(a.inNew, sl);
      NoSlots(s, id, sl);
    }
    forall sl ensures IpIn(s', s'.vvTried, sl) == Get(a.inTried, sl) {
      assert IpIn(s, s.vvTried, sl) == Get(a.inTried, sl);
      if sl in s.vvTried { assert TriedSlotOk(s, sl); }
    }
  }

  function Delete(s: State, id: int): State
    requires id in s.mapInfo && PosOk(s, s.mapInfo[id].nRandomPos) && PosOk(s, |s.vRandom| - 1)
  {
    Drop(Swap(s, s.mapInfo[id].nRandomPos, |s.vRandom| - 1), id)
  }

  lemma SwapToEnd(s: State, id: int)
    requires id in s.mapInfo && !s.mapInfo[id].fInTried && s.mapInfo[id].nRefCount == 0
    requires PosOk(s, s.mapInfo[id].nRandomPos) && s.vRandom[s.mapInfo[id].nRandomPos] == id && PosOk(s, |s.vRandom| - 1)
    ensures
      var s1 := Swap(s, s.mapInfo[id].nRandomPos, |s.vRandom| - 1);
      Droppable(s1, id) && s1.mapInfo[id].Ip() == s.mapInfo[id].Ip()
  {
  }

  lemma DeleteKeeps(s: State, id: int, limbo: set<int>, except: set<int>, a: Abs)
    requires Linked(s, limbo, except) && Shows(s, a) && id in s.mapInfo && id !in limbo
    requires !s.mapInfo[id].fInTried && s.mapInfo[id].nRefCount == 0
    ensures PosOk(s, s.mapInfo[id].nRandomPos) && PosOk(s, |s.vRandom| - 1)
    ensures Linked(Delete(s, id), limbo, except)
    ensures Shows(Delete(s, id), a.(infos := a.infos - {s.mapInfo[id].Ip()}))
  {
    assert IdOk(s, id);
    var i, j := s.mapInfo[id].nRandomPos, |s.vRandom| - 1;
    assert PosOk(s, i) && PosOk(s, j);
    SwapKeeps(s, i, j, limbo, except);
    SwapShows(s, i, j, a);
    SwapToEnd(s, id);
    DropKeeps(Swap(s, i, j), id, limbo, except, a, s.mapInfo[id].Ip());
  }

  lemma DropKeeps(s: State, id: int, limbo: set<int>, except: set<int>, a: Abs, ip: Ip)
    requires Linked(s, limbo, except) && Shows(s, a) && Droppable(s, id) && id !in limbo && s.mapInfo[id].Ip() == ip
    ensures Linked(Drop(s, id), limbo, except) && Shows(Drop(s, id), a.(infos := a.infos - {ip}))
  {
    DropWired(s, id);
    DropCounts(s, id, limbo, except);
    DropShows(s, id, a);
  }

  // Unslot: one slot of the new table is emptied.

  function Unslot(s: State, sl: Slot): State
    requires sl in s.vvNew && s.vvNew[sl] in s.mapInfo
  {
    var id := s.vvNew[sl];
    s.(mapInfo := Recount(s.mapInfo, id, s.mapInfo[id].nRefCount - 1), vvNew := s.vvNew - {sl})
  }

  lemma SlotsWithout(t: Table, sl: Slot, id: int)
    requires sl in t
    ensures SlotsOf(t - {sl}, id) == if t[sl] == id then SlotsOf(t, id) - {sl} else SlotsOf(t, id)
    ensures t[sl] == id ==> |SlotsOf(t - {sl}, id)| == |SlotsOf(t, id)| - 1
  {
    assert forall x :: x in SlotsOf(t - {sl}, id) <==> x in SlotsOf(t, id) && x != sl;
    assert t[sl] == id <==> sl in SlotsOf(t, id);
    assert SlotsOf(t - {sl}, id) == SlotsOf(t, id) - {sl};
  }

  lemma UnslotId(s: State, sl: Slot, k: int)
    requires s.h.Ok() && NewSlotOk(s, sl) && IdOk(s, k)
    ensures IdOk(Unslot(s, sl), k)
  {
    SlotsWithout(s.vvNew, sl, k);
  }

  lemma UnslotWired(s: State, sl: Slot)
    requires Wired(s) && NewSlotOk(s, sl)
    ensures Wired(Unslot(s, sl))
  {
    var s' := Unslot(s, sl);
    forall k | k in s'.mapInfo ensures IdOk(s', k) { assert IdOk(s, k); UnslotId(s, sl, k); }
    forall ip | ip in s'.mapAddr ensures IpOk(s', ip) { assert IpOk(s, ip); }
    forall k | 0 <= k < |s'.vRandom| ensures PosOk(s', k) { assert PosOk(s, k); }
    forall x | x in s'.vvTried ensures TriedSlotOk(s', x) { assert TriedSlotOk(s, x); }
    forall x | x in s'.vvNew ensures NewSlotOk(s', x) { assert NewSlotOk(s, x); }
  }

  lemma UnslotCounts(s: State, sl: Slot, limbo: set<int>, except: set<int>)
    requires s.h.Ok() && NewSlotOk(s, sl) && s.vvNew[sl] !in limbo && Counted(s, limbo) && Referenced(s, except)
    ensures Counted(Unslot(s, sl), limbo) && Referenced(Unslot(s, sl), except + {s.vvNew[sl]})
  {
    var s' := Unslot(s, sl);
    assert forall k :: k in NewIds(s') <==> k in NewIds(s);
    assert forall k :: k in TriedIds(s') <==> k in TriedIds(s);
    assert NewIds(s') == NewIds(s) && TriedIds(s') == TriedIds(s);
  }

  lemma UnslotShows(s: State, sl: Slot, a: Abs)
    requires s.h.Ok() && NewSlotOk(s, sl) && Shows(s, a)
    ensures Shows(Unslot(s, sl), a.(inNew := a.inNew - {sl}))
  {
    var s' := Unslot(s, sl);
    forall ip ensures StatsAt(s', ip) == Get(a.infos, ip) { assert StatsAt(s, ip) == Get(a.infos, ip); }
    forall x ensures IpIn(s', s'.vvNew, x) == Get(a.inNew - {sl}, x) { assert IpIn(s, s.vvNew, x) == Get(a.inNew, x); }
    forall x ensures IpIn(s', s'.vvTried, x) == Get(a.inTried, x) { assert IpIn(s, s.vvTried, x) == Get(a.inTried, x); }
  }

  // ClearNew: empty the slot; an entry that loses its last slot is forgotten.

  ghost predicate ClearPre(s: State, sl: Slot) {
    sl in s.vvNew ==>
      && s.vvNew[sl] in s.mapInfo
      && PosOk(s, s.mapInfo[s.vvNew[sl]].nRandomPos) && PosOk(s, |s.vRandom| - 1)
  }

  ghost function ClearNew(s: State, sl: Slot): State
    requires ClearPre(s, sl)
  {
    if sl !in s.vvNew then s
    else
      var s1 := Unslot(s, sl);
      if s1.mapInfo[s.vvNew[sl]].nRefCount == 0 then Delete(s1, s.vvNew[sl]) else s1
  }

  ghost function AbsClear(a: Abs, sl: Slot): Abs {
    if sl !in a.inNew then a
    else
      var ip, rest := a.inNew[sl], a.inNew - {sl};
      if ip in rest.Values then a.(inNew := rest) else a.(inNew := rest, infos := a.infos - {ip})
  }

  /** In the id-free view an entry has slots exactly when its count is not zero. */
  lemma CountIsOccupancy(s: State, id: int, a: Abs)
    requires Wired(s) && Shows(s, a) && id in s.mapInfo && !s.mapInfo[id].fInTried
    ensures s.mapInfo[id].nRefCount == 0 <==> s.mapInfo[id].Ip() !in a.inNew.Values
  {
    var ip := s.mapInfo[id].Ip();
    assert IdOk(s, id);
    if s.mapInfo[id].nRefCount != 0 {
      assert SlotsOf(s.vvNew, id) != {};
      var sl :| sl in SlotsOf(s.vvNew, id);
      assert IpIn(s, s.vvNew, sl) == Get(a.inNew, sl);
      assert sl in a.inNew && a.inNew[sl] == ip;
    } else if ip in a.inNew.Values {
      var sl :| sl in a.inNew && a.inNew[sl] == ip;
      assert IpIn(s, s.vvNew, sl) == Get(a.inNew, sl);
      assert IdOk(s, s.vvNew[sl]);
      NoSlots(s, id, sl);
    }
  }

  lemma ClearPreHolds(s: State, sl: Slot)
    requires Wired(s)
    ensures ClearPre(s, sl)
  {
    if sl in s.vvNew {
      assert NewSlotOk(s, sl);
      assert IdOk(s, s.vvNew[sl]);
      assert PosOk(s, s.mapInfo[s.vvNew[sl]].nRandomPos);
      assert PosOk(s, |s.vRandom| - 1);
    }
  }

  lemma ClearKeeps(s: State, sl: Slot, limbo: set<int>, except: set<int>, a: Abs)
    requires Linked(s, limbo, except) && Shows(s, a)
    ensures ClearPre(s, sl)
    ensures Linked(ClearNew(s, sl), limbo, except) && Shows(ClearNew(s, sl), AbsClear(a, sl))
    ensures sl !in ClearNew(s, sl).vvNew
  {
    ClearPreHolds(s, sl);
    assert IpIn(s, s.vvNew, sl) == Get(a.inNew, sl);
    if sl in s.vvNew {
      var id, s1 := s.vvNew[sl], Unslot(s, sl);
      assert NewSlotOk(s, sl);
      assert IdOk(s, id);
      if id in limbo { NoSlots(s, id, sl); }
      UnslotWired(s, sl);
      UnslotCounts(s, sl, limbo, except);
      UnslotShows(s, sl, a);
      CountIsOccupancy(s1, id, a.(inNew := a.inNew - {sl}));
      if s1.mapInfo[id].nRefCount == 0 {
        DeleteKeeps(s1, id, limbo, except + {id}, a.(inNew := a.inNew - {sl}));
      }
    }
  }
}
