/**
 * The stored form of the address manager (src/addrman.h:296-449): what is written, what reading it builds, and the
 * same said without ids. The key is part of `Hashing`, so the reading manager hashes like the writing one.
 */
module AddrManStore {
  import opened Options
  import opened AddrManModel
  import opened AddrManMoves

  /** What the stream keeps of an entry. */
  datatype Persisted = Persisted(service: Service, nServices: Services, nTime: nat, source: Ip, nLastSuccess: int, nAttempts: int)

  function Persist(st: Stats): Persisted {
    Persisted(st.service, st.nServices, st.nTime, st.source, st.nLastSuccess, st.nAttempts)
  }

  function Revive(p: Persisted): Stats {
    Stats(p.service, p.nServices, p.nTime, p.source, p.nLastSuccess, 0, 0, p.nAttempts)
  }

  /** The stream in order; each list is as long as the count written before it. */
  datatype Image = Image(nVersion: nat, nKeySize: nat, nUBuckets: int, news: seq<Persisted>, trieds: seq<Persisted>, rows: seq<seq<int>>)

  /** Exclusive or with 1 << 30. */
  function Flip(x: int): int {
    if (x / 0x4000_0000) % 2 == 1 then x - 0x4000_0000 else x + 0x4000_0000
  }

  function Buckets(img: Image): int {
    if img.nVersion != 0 then Flip(img.nUBuckets) else img.nUBuckets
  }

  /** Whether the stored slots of the new table can be used. */
  predicate Usable(h: Hashing, img: Image) {
    img.nVersion == 1 && Buckets(img) == h.nNewBuckets
  }

  predicate Throws(h: Hashing, img: Image) {
    img.nKeySize != 32 || |img.news| > h.nNewBuckets * h.nBucketSize || |img.trieds| > h.nTriedBuckets * h.nBucketSize
  }

  // ----- one step of reading, with and without ids -----

  function LoadNew(s: State, p: Persisted, usable: bool): State
    requires s.h.Ok()
  {
    var id, s1 := s.nIdCount, Create(s, Revive(p)).(nNew := s.nNew + 1);
    var sl := s.h.NewSlot(p.service, p.source);
    if usable || sl in s.vvNew then s1 else Enter(s1, id, sl)
  }

  function AbsLoadNew(h: Hashing, a: Abs, p: Persisted, usable: bool): Abs
    requires h.Ok()
  {
    var a1 := a.(infos := a.infos[p.service.ip := Revive(p)]);
    var sl := h.NewSlot(p.service, p.source);
    if usable || sl in a.inNew then a1 else a1.(inNew := a.inNew[sl := p.service.ip])
  }

  function LoadTried(s: State, p: Persisted): State
    requires s.h.Ok()
  {
    if s.h.TriedSlot(p.service) in s.vvTried then s else Promote(Create(s, Revive(p)), s.nIdCount)
  }

  function AbsLoadTried(h: Hashing, a: Abs, p: Persisted): Abs
    requires h.Ok()
  {
    var sl := h.TriedSlot(p.service);
    if sl in a.inTried then a else a.(infos := a.infos[p.service.ip := Revive(p)], inTried := a.inTried[sl := p.service.ip])
  }

  /** The slot that entry `id` has in a bucket is free, and the entry may take another one. */
  predicate Enterable(s: State, b: nat, id: int)
    requires s.h.Ok()
  {
    && id in s.mapInfo && b < s.h.nNewBuckets && s.h.NewSlotIn(s.mapInfo[id].stats.service, b) !in s.vvNew
    && s.mapInfo[id].nRefCount < BUCKETS_PER_ADDRESS
  }

  function LoadIndex(s: State, nNew: nat, b: nat, id: int): State
    requires s.h.Ok()
  {
    if 0 <= id < nNew && Enterable(s, b, id) then Enter(s, id, s.h.NewSlotIn(s.mapInfo[id].stats.service, b)) else s
  }

  ghost function AbsLoadIndex(h: Hashing, a: Abs, news: seq<Persisted>, b: nat, id: int): Abs
    requires h.Ok()
  {
    if 0 <= id < |news| && b < h.nNewBuckets then
      var p := news[id];
      var sl := h.NewSlotIn(p.service, b);
      if sl !in a.inNew && |AbsSlots(a, p.service.ip)| < BUCKETS_PER_ADDRESS then a.(inNew := a.inNew[sl := p.service.ip]) else a
    else a
  }

  // ----- what holds while reading -----

  /** Entry `k` is the `k`-th entry of the new list. */
  ghost predicate Holds(s: State, news: seq<Persisted>, k: nat)
    requires k < |news|
  {
    k in s.mapInfo && !s.mapInfo[k].fInTried && s.mapInfo[k].stats == Revive(news[k])
  }

  /** Everything is wired and counted; new entries may still be without a slot. The first `n` of the new list are in. */
  ghost predicate Loading(s: State, a: Abs, news: seq<Persisted>, n: nat) {
    && Linked(s, {}, NewIds(s)) && Shows(s, a) && n <= |news| && n <= s.nIdCount
    && forall k {:trigger Holds(s, news, k)} | 0 <= k < n :: Holds(s, news, k)
  }

  lemma CreateLoading(s: State, a: Abs, p: Persisted)
    requires Linked(s, {}, NewIds(s)) && Shows(s, a) && p.service.ip !in a.infos
    ensures
      var s1 := Create(s, Revive(p)).(nNew := s.nNew + 1);
      Linked(s1, {}, NewIds(s1)) && Shows(s1, a.(infos := a.infos[p.service.ip := Revive(p)]))
  {
    var st := Revive(p);
    FreshId(s);
    NotListed(s, a, p.service.ip);
    CreateWired(s, st);
    CreateShows(s, st, a);
    CountOnly(Create(s, st), s.nNew + 1, a.(infos := a.infos[p.service.ip := st]));
    CreatedIds(s, st);
  }

  lemma CreatedIds(s: State, st: Stats)
    requires s.nIdCount !in s.mapInfo && Counted(s, {})
    ensures var s1 := Create(s, st).(nNew := s.nNew + 1); Counted(s1, {}) && NewIds(s1) == NewIds(s) + {s.nIdCount}
  {
    var s1 := Create(s, st).(nNew := s.nNew + 1);
    assert forall id :: id in NewIds(s1) <==> id in NewIds(s) || id == s.nIdCount;
    assert forall id :: id in TriedIds(s1) <==> id in TriedIds(s);
    assert NewIds(s1) == NewIds(s) + {s.nIdCount} && TriedIds(s1) == TriedIds(s);
  }

  lemma NotListed(s: State, a: Abs, ip: Ip)
    requires Wired(s) && Shows(s, a) && ip !in a.infos
    ensures ip !in s.mapAddr
  {
    assert StatsAt(s, ip) == Get(a.infos, ip);
    assert ip in s.mapAddr ==> IpOk(s, ip);
  }

  lemma SlotShown(s: State, a: Abs, sl: Slot)
    requires Wired(s) && Shows(s, a)
    ensures sl in s.vvNew <==> sl in a.inNew
    ensures sl in s.vvTried <==> sl in a.inTried
  {
    assert IpIn(s, s.vvNew, sl) == Get(a.inNew, sl) && IpIn(s, s.vvTried, sl) == Get(a.inTried, sl);
    if sl in s.vvNew {
      assert NewSlotOk(s, sl);
    }
    if sl in s.vvTried {
      assert TriedSlotOk(s, sl);
    }
  }

  lemma EnterLoading(s: State, a: Abs, id: int, sl: Slot)
    requires Linked(s, {}, NewIds(s)) && Shows(s, a) && CanEnter(s, id, sl)
    ensures
      var s1 := Enter(s, id, sl);
      Linked(s1, {}, NewIds(s1)) && Shows(s1, a.(inNew := a.inNew[sl := s.mapInfo[id].Ip()]))
  {
    EnterWired(s, id, sl);
    EnterShows(s, id, sl, a);
    var s1 := Enter(s, id, sl);
    assert forall k :: k in NewIds(s1) <==> k in NewIds(s);
    assert forall k :: k in TriedIds(s1) <==> k in TriedIds(s);
    assert NewIds(s1) == NewIds(s) && TriedIds(s1) == TriedIds(s);
  }

  lemma LoadNewKeeps(s: State, a: Abs, news: seq<Persisted>, n: nat, usable: bool)
    requires Loading(s, a, news, n) && n < |news| && s.nIdCount == n && news[n].service.ip !in a.infos
    ensures
      var s1 := LoadNew(s, news[n], usable);
      Loading(s1, AbsLoadNew(s.h, a, news[n], usable), news, n + 1) && s1.nIdCount == n + 1 && s1.h == s.h
  {
    var p := news[n];
    CreateLoading(s, a, p);
    var s1 := Create(s, Revive(p)).(nNew := s.nNew + 1);
    var sl := s.h.NewSlot(p.service, p.source);
    SlotShown(s, a, sl);
    var s2 := LoadNew(s, p, usable);
    if !usable && sl !in s.vvNew {
      EnterLoading(s1, a.(infos := a.infos[p.service.ip := Revive(p)]), n, sl);
    }
    forall k | 0 <= k < n + 1 ensures Holds(s2, news, k) {
      if k < n {
        assert Holds(s, news, k);
      }
    }
  }

  lemma PromoteLoading(s: State, a: Abs, p: Persisted)
    requires Linked(s, {}, NewIds(s)) && Shows(s, a) && p.service.ip !in a.infos && s.h.TriedSlot(p.service) !in s.vvTried
    ensures
      var s1, sl := Promote(Create(s, Revive(p)), s.nIdCount), s.h.TriedSlot(p.service);
      && Linked(s1, {}, NewIds(s1))
      && Shows(s1, a.(infos := a.infos[p.service.ip := Revive(p)], inTried := a.inTried[sl := p.service.ip]))
  {
    var st, id := Revive(p), s.nIdCount;
    FreshId(s);
    NotListed(s, a, p.service.ip);
    CreateWired(s, st);
    CreateShows(s, st, a);
    var c, ca := Create(s, st), a.(infos := a.infos[p.service.ip := st]);
    PromoteWired(c, id);
    PromoteShows(c, id, ca);
    PromotedIds(s, st);
  }

  lemma PromotedIds(s: State, st: Stats)
    requires s.h.Ok() && s.nIdCount !in s.mapInfo && Counted(s, {})
    ensures var s1 := Promote(Create(s, st), s.nIdCount); Counted(s1, {}) && NewIds(s1) == NewIds(s)
  {
    var s1, id0 := Promote(Create(s, st), s.nIdCount), s.nIdCount;
    forall id ensures id in NewIds(s1) <==> id in NewIds(s) {
      PromotedKind(s, st, id);
    }
    forall id ensures id in TriedIds(s1) <==> id in TriedIds(s) || id == id0 {
      PromotedKind(s, st, id);
    }
    assert NewIds(s1) == NewIds(s) && TriedIds(s1) == TriedIds(s) + {id0};
  }

  lemma PromotedKind(s: State, st: Stats, id: int)
    requires s.h.Ok() && s.nIdCount !in s.mapInfo
    ensures
      var s1 := Promote(Create(s, st), s.nIdCount);
      (id in NewIds(s1) <==> id in NewIds(s)) && (id in TriedIds(s1) <==> id in TriedIds(s) || id == s.nIdCount)
  {
  }

  lemma LoadTriedKeeps(s: State, a: Abs, news: seq<Persisted>, p: Persisted, t: State, b: Abs)
    requires Loading(s, a, news, |news|) && p.service.ip !in a.infos
    requires t == LoadTried(s, p) && b == AbsLoadTried(s.h, a, p)
    ensures Loading(t, b, news, |news|) && t.h == s.h
  {
    SlotShown(s, a, s.h.TriedSlot(p.service));
    if s.h.TriedSlot(p.service) !in s.vvTried {
      PromoteLoading(s, a, p);
      forall k | 0 <= k < |news| ensures Holds(t, news, k) {
        assert Holds(s, news, k);
        assert IdOk(s, k);
      }
    }
  }

  lemma LoadIndexKeeps(s: State, a: Abs, news: seq<Persisted>, b: nat, id: int)
    requires Loading(s, a, news, |news|)
    ensures Loading(LoadIndex(s, |news|, b, id), AbsLoadIndex(s.h, a, news, b, id), news, |news|) && LoadIndex(s, |news|, b, id).h == s.h
  {
    if 0 <= id < |news| {
      assert Holds(s, news, id);
      var sl := s.h.NewSlotIn(news[id].service, b);
      SlotShown(s, a, sl);
      ReadEntry(s, id, a);
      if Enterable(s, b, id) {
        EnterLoading(s, a, id, sl);
        var s1 := Enter(s, id, sl);
        forall k | 0 <= k < |news| ensures Holds(s1, news, k) {
          assert Holds(s, news, k);
        }
      }
    }
  }

  // ----- whole lists -----

  function LoadNews(s: State, ps: seq<Persisted>, n: nat, usable: bool): (r: State)
    requires s.h.Ok() && n <= |ps|
    ensures r.h == s.h
  {
    if n == 0 then s else LoadNew(LoadNews(s, ps, n - 1, usable), ps[n - 1], usable)
  }

  function AbsLoadNews(h: Hashing, a: Abs, ps: seq<Persisted>, n: nat, usable: bool): Abs
    requires h.Ok() && n <= |ps|
  {
    if n == 0 then a else AbsLoadNew(h, AbsLoadNews(h, a, ps, n - 1, usable), ps[n - 1], usable)
  }

  function LoadTrieds(s: State, ps: seq<Persisted>, n: nat): (r: State)
    requires s.h.Ok() && n <= |ps|
    ensures r.h == s.h
  {
    if n == 0 then s else LoadTried(LoadTrieds(s, ps, n - 1), ps[n - 1])
  }

  function AbsLoadTrieds(h: Hashing, a: Abs, ps: seq<Persisted>, n: nat): Abs
    requires h.Ok() && n <= |ps|
  {
    if n == 0 then a else AbsLoadTried(h, AbsLoadTrieds(h, a, ps, n - 1), ps[n - 1])
  }

  function LoadRow(s: State, nNew: nat, b: nat, row: seq<int>, n: nat): (r: State)
    requires s.h.Ok() && n <= |row|
    ensures r.h == s.h
  {
    if n == 0 then s else LoadIndex(LoadRow(s, nNew, b, row, n - 1), nNew, b, row[n - 1])
  }

  ghost function AbsLoadRow(h: Hashing, a: Abs, news: seq<Persisted>, b: nat, row: seq<int>, n: nat): Abs
    requires h.Ok() && n <= |row|
  {
    if n == 0 then a else AbsLoadIndex(h, AbsLoadRow(h, a, news, b, row, n - 1), news, b, row[n - 1])
  }

  function LoadRows(s: State, nNew: nat, rows: seq<seq<int>>, n: nat): (r: State)
    requires s.h.Ok() && n <= |rows|
    ensures r.h == s.h
  {
    if n == 0 then s else LoadRow(LoadRows(s, nNew, rows, n - 1), nNew, n - 1, rows[n - 1], |rows[n - 1]|)
  }

  ghost function AbsLoadRows(h: Hashing, a: Abs, news: seq<Persisted>, rows: seq<seq<int>>, n: nat): Abs
    requires h.Ok() && n <= |rows|
  {
    if n == 0 then a else AbsLoadRow(h, AbsLoadRows(h, a, news, rows, n - 1), news, n - 1, rows[n - 1], |rows[n - 1]|)
  }

  /** The addresses of the first `n` entries. */
  function Ips(ps: seq<Persisted>, n: nat): set<Ip>
    requires n <= |ps|
  {
    set k | 0 <= k < n :: ps[k].service.ip
  }

  ghost predicate DistinctIps(ps: seq<Persisted>) {
    forall j, k | 0 <= j < k < |ps| :: ps[j].service.ip != ps[k].service.ip
  }

  lemma NextIp(ps: seq<Persisted>, n: nat)
    requires DistinctIps(ps) && n < |ps|
    ensures ps[n].service.ip !in Ips(ps, n) && Ips(ps, n + 1) == Ips(ps, n) + {ps[n].service.ip}
  {
    forall x ensures x in Ips(ps, n + 1) <==> x in Ips(ps, n) + {ps[n].service.ip} {
      if x == ps[n].service.ip {
        assert ps[n].service.ip in Ips(ps, n + 1);
      }
    }
  }

  lemma {:induction false} NewsIps(h: Hashing, a: Abs, all: seq<Persisted>, news: seq<Persisted>, n: nat, usable: bool)
    requires h.Ok() && a.infos == map[] && n <= |news| && news <= all && DistinctIps(all)
    ensures AbsLoadNews(h, a, news, n, usable).infos.Keys == Ips(all, n)
  {
    if n > 0 {
      NewsIps(h, a, all, news, n - 1, usable);
      NextIp(all, n - 1);
    }
  }

  lemma {:induction false} TriedsIps(h: Hashing, a: Abs, all: seq<Persisted>, trieds: seq<Persisted>, m: nat, n: nat)
    requires h.Ok() && n <= |trieds| && m <= |all| && all[m..] == trieds && DistinctIps(all) && a.infos.Keys <= Ips(all, m)
    ensures AbsLoadTrieds(h, a, trieds, n).infos.Keys <= Ips(all, m + n)
  {
    if n > 0 {
      TriedsIps(h, a, all, trieds, m, n - 1);
      assert trieds[n - 1] == all[m + n - 1];
      NextIp(all, m + n - 1);
    }
  }

  lemma NextTried(h: Hashing, a: Abs, all: seq<Persisted>, trieds: seq<Persisted>, m: nat, n: nat)
    requires h.Ok() && n < |trieds| && m <= |all| && all[m..] == trieds && DistinctIps(all) && a.infos.Keys <= Ips(all, m)
    ensures trieds[n].service.ip !in AbsLoadTrieds(h, a, trieds, n).infos
  {
    TriedsIps(h, a, all, trieds, m, n);
    assert trieds[n] == all[m + n];
    NextIp(all, m + n);
  }

  lemma {:induction false} LoadNewsKeeps(s: State, a: Abs, all: seq<Persisted>, news: seq<Persisted>, n: nat, usable: bool, t: State, b: Abs)
    requires Loading(s, a, news, 0) && s.nIdCount == 0 && a.infos == map[] && n <= |news| && news <= all && DistinctIps(all)
    requires t == LoadNews(s, news, n, usable) && b == AbsLoadNews(s.h, a, news, n, usable)
    ensures Loading(t, b, news, n) && t.nIdCount == n
  {
    if n > 0 {
      var k := n - 1;
      var t0, b0 := LoadNews(s, news, k, usable), AbsLoadNews(s.h, a, news, k, usable);
      LoadNewsKeeps(s, a, all, news, k, usable, t0, b0);
      NewsIps(s.h, a, all, news, k, usable);
      NextIp(all, k);
      LoadNewKeeps(t0, b0, news, k, usable);
    }
  }

  lemma LastTried(s: State, ps: seq<Persisted>, k: nat, n: nat, u: State) returns (u0: State)
    requires s.h.Ok() && n == k + 1 <= |ps| && u == LoadTrieds(s, ps, n)
    ensures u0 == LoadTrieds(s, ps, k) && u0.h.Ok() && u == LoadTried(u0, ps[k])
  {
    u0 := LoadTrieds(s, ps, k);
  }

  lemma LastAbsTried(h: Hashing, a: Abs, ps: seq<Persisted>, k: nat, n: nat, b: Abs) returns (b0: Abs)
    requires h.Ok() && n == k + 1 <= |ps| && b == AbsLoadTrieds(h, a, ps, n)
    ensures b0 == AbsLoadTrieds(h, a, ps, k) && b == AbsLoadTried(h, b0, ps[k])
  {
    b0 := AbsLoadTrieds(h, a, ps, k);
  }

  lemma {:induction false} LoadTriedsKeeps(s: State, a: Abs, all: seq<Persisted>, news: seq<Persisted>, trieds: seq<Persisted>, n: nat, t: State, b: Abs)
    requires Loading(s, a, news, |news|) && n <= |trieds| && all == news + trieds && DistinctIps(all) && a.infos.Keys <= Ips(all, |news|)
    requires t == LoadTrieds(s, trieds, n) && b == AbsLoadTrieds(s.h, a, trieds, n)
    ensures Loading(t, b, news, |news|)
  {
    if n > 0 {
      var k := n - 1;
      var t0 := LastTried(s, trieds, k, n, t);
      var b0 := LastAbsTried(s.h, a, trieds, k, n, b);
      LoadTriedsKeeps(s, a, all, news, trieds, k, t0, b0);
      NextTried(s.h, a, all, trieds, |news|, k);
      LoadTriedKeeps(t0, b0, news, trieds[k], t, b);
    }
  }

  lemma {:induction false} LoadRowKeeps(s: State, a: Abs, news: seq<Persisted>, b: nat, row: seq<int>, n: nat)
    requires Loading(s, a, news, |news|) && n <= |row|
    ensures Loading(LoadRow(s, |news|, b, row, n), AbsLoadRow(s.h, a, news, b, row, n), news, |news|)
  {
    if n > 0 {
      LoadRowKeeps(s, a, news, b, row, n - 1);
      LoadIndexKeeps(LoadRow(s, |news|, b, row, n - 1), AbsLoadRow(s.h, a, news, b, row, n - 1), news, b, row[n - 1]);
    }
  }

  lemma {:induction false} LoadRowsKeeps(s: State, a: Abs, news: seq<Persisted>, rows: seq<seq<int>>, n: nat)
    requires Loading(s, a, news, |news|) && n <= |rows|
    ensures Loading(LoadRows(s, |news|, rows, n), AbsLoadRows(s.h, a, news, rows, n), news, |news|)
  {
    if n > 0 {
      LoadRowsKeeps(s, a, news, rows, n - 1);
      LoadRowKeeps(LoadRows(s, |news|, rows, n - 1), AbsLoadRows(s.h, a, news, rows, n - 1), news, n - 1, rows[n - 1], |rows[n - 1]|);
    }
  }

  // ----- the last pass: entries left without a slot are deleted -----

  predicate Slotless(s: State, id: int) {
    id in s.mapInfo && !s.mapInfo[id].fInTried && s.mapInfo[id].nRefCount == 0
  }

  ghost function PruneOne(s: State, id: int): State {
    if Slotless(s, id) && PosOk(s, s.mapInfo[id].nRandomPos) && PosOk(s, |s.vRandom| - 1) then Delete(s, id) else s
  }

  ghost function Prune(s: State, n: nat): State {
    if n == 0 then s else PruneOne(Prune(s, n - 1), n - 1)
  }

  ghost predicate AbsHeld(h: Hashing, a: Abs, ip: Ip)
    requires h.Ok()
  {
    AbsInTried(h, a, ip) || ip in a.inNew.Values
  }

  /** Only addresses that hold a slot stay. */
  ghost function AbsPrune(h: Hashing, a: Abs): Abs
    requires h.Ok()
  {
    a.(infos := map ip | ip in a.infos && AbsHeld(h, a, ip) :: a.infos[ip])
  }

  /** `b` is `a` without some of the addresses that hold no slot. */
  ghost predicate Pruning(h: Hashing, a: Abs, b: Abs)
    requires h.Ok()
  {
    && b.inNew == a.inNew && b.inTried == a.inTried && b.nLastGood == a.nLastGood
    && (forall ip | ip in b.infos :: ip in a.infos && b.infos[ip] == a.infos[ip])
    && (forall ip | ip in a.infos && ip !in b.infos :: !AbsHeld(h, a, ip))
  }

  /** The new entries from `n` on. */
  function From(s: State, n: nat): set<int> {
    set id | id in s.mapInfo && !s.mapInfo[id].fInTried && id >= n
  }

  lemma NarrowFrom(s: State, n: nat)
    requires Referenced(s, From(s, n)) && !Slotless(s, n) && Wired(s)
    ensures Referenced(s, From(s, n + 1))
  {
    forall id | id in s.mapInfo && !s.mapInfo[id].fInTried && id !in From(s, n + 1) ensures s.mapInfo[id].nRefCount >= 1 {
      assert IdOk(s, id);
    }
  }

  lemma DeleteIds(s: State, id: int)
    requires id in s.mapInfo && PosOk(s, s.mapInfo[id].nRandomPos) && PosOk(s, |s.vRandom| - 1)
    ensures Delete(s, id).mapInfo.Keys == s.mapInfo.Keys - {id} && Delete(s, id).h == s.h && Delete(s, id).nIdCount == s.nIdCount
    ensures forall k | k in Delete(s, id).mapInfo :: Delete(s, id).mapInfo[k].fInTried == s.mapInfo[k].fInTried
  {
  }

  lemma PruneStep(s: State, a: Abs, b: Abs, n: nat, t: State) returns (c: Abs)
    requires Linked(s, {}, From(s, n)) && Shows(s, b) && Pruning(s.h, a, b) && t == PruneOne(s, n)
    ensures Linked(t, {}, From(t, n + 1)) && t.h == s.h && t.nIdCount == s.nIdCount && Shows(t, c) && Pruning(s.h, a, c)
  {
    if Slotless(s, n) {
      DeleteKeeps(s, n, {}, From(s, n), b);
      DeleteIds(s, n);
      ReadEntry(s, n, b);
      CountIsOccupancy(s, n, b);
      c := b.(infos := b.infos - {s.mapInfo[n].Ip()});
      assert !Slotless(t, n);
      forall id | id in t.mapInfo && !t.mapInfo[id].fInTried && id !in From(t, n) ensures t.mapInfo[id].nRefCount >= 1 {
        assert id !in From(s, n);
      }
      NarrowFrom(t, n);
    } else {
      c := b;
      NarrowFrom(s, n);
    }
  }

  lemma {:induction false} PrunePrevious(s: State, n: nat, t: State) returns (t0: State, k: nat)
    requires n > 0 && t == Prune(s, n)
    ensures k + 1 == n && t0 == Prune(s, k) && t == PruneOne(t0, k)
  {
    t0, k := Prune(s, n - 1), n - 1;
  }

  lemma {:induction false} PruneKeeps(s: State, a: Abs, n: nat, t: State) returns (b: Abs)
    requires Linked(s, {}, NewIds(s)) && Shows(s, a) && t == Prune(s, n)
    ensures Linked(t, {}, From(t, n)) && t.h == s.h && t.nIdCount == s.nIdCount && Shows(t, b) && Pruning(s.h, a, b)
  {
    if n == 0 {
      b := a;
      forall id | id in NewIds(s) ensures id in From(s, 0) {
        assert IdOk(s, id);
      }
    } else {
      var t0, k := PrunePrevious(s, n, t);
      var b0 := PruneKeeps(s, a, k, t0);
      b := PruneStep(t0, a, b0, k, t);
    }
  }

  /** After the last pass everything `Check_` asks for holds, and what stays is exactly what holds a slot. */
  lemma PruneAll(s: State, a: Abs)
    requires Linked(s, {}, NewIds(s)) && Shows(s, a)
    ensures Inv(Prune(s, s.nIdCount)) && Shows(Prune(s, s.nIdCount), AbsPrune(s.h, a)) && Prune(s, s.nIdCount).h == s.h
  {
    var t := Prune(s, s.nIdCount);
    var b := PruneKeeps(s, a, s.nIdCount, t);
    forall id | id in t.mapInfo && !t.mapInfo[id].fInTried ensures t.mapInfo[id].nRefCount >= 1 {
      assert IdOk(t, id);
      assert id !in From(t, s.nIdCount);
    }
    assert Inv(t);
    forall ip ensures Get(b.infos, ip) == Get(AbsPrune(s.h, a).infos, ip) {
      StaysHeld(t, b, ip);
    }
    SameLookup(b.infos, AbsPrune(s.h, a).infos);
  }

  lemma StaysHeld(s: State, a: Abs, ip: Ip)
    requires Inv(s) && Shows(s, a)
    ensures ip in a.infos ==> AbsHeld(s.h, a, ip)
  {
    assert StatsAt(s, ip) == Get(a.infos, ip);
    if ip in a.infos {
      var id := s.mapAddr[ip];
      assert IpOk(s, ip);
      ReadEntry(s, id, a);
      if !s.mapInfo[id].fInTried {
        CountIsOccupancy(s, id, a);
      }
    }
  }

  // ----- the whole of reading -----

  function Blank(h: Hashing): State {
    State(h, 0, map[], map[], [], 0, map[], 0, map[], 1)
  }

  const NOTHING := Abs(map[], map[], map[], 1)

  function Filled(h: Hashing, img: Image): State
    requires h.Ok()
  {
    var s := LoadTrieds(LoadNews(Blank(h), img.news, |img.news|, Usable(h, img)), img.trieds, |img.trieds|);
    if Usable(h, img) then LoadRows(s, |img.news|, img.rows, |img.rows|) else s
  }

  ghost function Loaded(h: Hashing, img: Image): State
    requires h.Ok()
  {
    var s := Filled(h, img);
    Prune(s, if s.nIdCount < 0 then 0 else s.nIdCount)
  }

  ghost function AbsFilled(h: Hashing, img: Image): Abs
    requires h.Ok()
  {
    var a := AbsLoadTrieds(h, AbsLoadNews(h, NOTHING, img.news, |img.news|, Usable(h, img)), img.trieds, |img.trieds|);
    if Usable(h, img) then AbsLoadRows(h, a, img.news, img.rows, |img.rows|) else a
  }

  ghost function AbsLoaded(h: Hashing, img: Image): Abs
    requires h.Ok()
  {
    AbsPrune(h, AbsFilled(h, img))
  }

  lemma BlankOk(h: Hashing, news: seq<Persisted>)
    requires h.Ok()
    ensures Loading(Blank(h), NOTHING, news, 0)
  {
    assert NewIds(Blank(h)) == {} && TriedIds(Blank(h)) == {};
  }

  lemma FilledKeeps(h: Hashing, img: Image)
    requires h.Ok() && DistinctIps(img.news + img.trieds)
    ensures Loading(Filled(h, img), AbsFilled(h, img), img.news, |img.news|)
  {
    var all, n, m, usable := img.news + img.trieds, |img.news|, |img.trieds|, Usable(h, img);
    BlankOk(h, img.news);
    NewsIps(h, NOTHING, all, img.news, n, usable);
    var s1, a1 := LoadNews(Blank(h), img.news, n, usable), AbsLoadNews(h, NOTHING, img.news, n, usable);
    LoadNewsKeeps(Blank(h), NOTHING, all, img.news, n, usable, s1, a1);
    var s2, a2 := LoadTrieds(s1, img.trieds, m), AbsLoadTrieds(h, a1, img.trieds, m);
    LoadTriedsKeeps(s1, a1, all, img.news, img.trieds, m, s2, a2);
    if usable {
      LoadRowsKeeps(s2, a2, img.news, img.rows, |img.rows|);
    }
  }

  /** Whatever the counts, collisions and bucket numbers in it, a stored form that names each address once loads into a consistent manager. */
  lemma LoadedIsConsistent(h: Hashing, img: Image)
    requires h.Ok() && DistinctIps(img.news + img.trieds)
    ensures Inv(Loaded(h, img)) && Loaded(h, img).h == h && Shows(Loaded(h, img), AbsLoaded(h, img))
  {
    FilledKeeps(h, img);
    PruneAll(Filled(h, img), AbsFilled(h, img));
  }
}
