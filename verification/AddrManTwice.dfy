/**
 * Stored forms that name an address more than once (src/addrman.h:345-449). Reading goes through the same moves as if every
 * entry had an address of its own, with hashes to match; only `mapAddr` can come out wrong.
 */
module AddrManTwice {
  import opened Options
  import opened AddrManModel
  import opened AddrManMoves
  import opened AddrManStore

  // ----- an address of its own for every entry -----

  function IpAt(all: seq<Persisted>, k: nat): Ip {
    if k < |all| then all[k].service.ip else 0
  }

  /** Hashes for addresses that are indexes into `all`. */
  function Renamed(h: Hashing, all: seq<Persisted>): Hashing {
    var newHash, triedHash, posHash := h.newHash, h.triedHash, h.posHash;
    h.(newHash := (k, src) => newHash(IpAt(all, k), src),
       triedHash := (a: Service) => triedHash(a.(ip := IpAt(all, a.ip))),
       posHash := (a: Service, fNew, b) => posHash(a.(ip := IpAt(all, a.ip)), fNew, b))
  }

  function Named(p: Persisted, k: Ip): Persisted {
    p.(service := p.service.(ip := k))
  }

  function NamedAll(ps: seq<Persisted>, first: nat): seq<Persisted> {
    seq(|ps|, i requires 0 <= i < |ps| => Named(ps[i], first + i))
  }

  lemma SameSlots(h: Hashing, all: seq<Persisted>, a: Service, k: nat, b: nat, src: Ip)
    requires h.Ok() && k < |all| && a.ip == all[k].service.ip
    ensures
      var h', a' := Renamed(h, all), a.(ip := k);
      && h'.Ok() && h'.NewSlotIn(a', b) == h.NewSlotIn(a, b) && h'.TriedSlot(a') == h.TriedSlot(a)
      && h'.NewSlot(a', src) == h.NewSlot(a, src)
  {
    assert a.(ip := k).(ip := IpAt(all, k)) == a;
  }

  function WithIp(e: Info, ip: Ip): Info {
    e.(stats := e.stats.(service := e.stats.service.(ip := ip)))
  }

  ghost predicate LikeAt(s: State, t: State, all: seq<Persisted>, id: int) {
    && id in s.mapInfo && id in t.mapInfo && t.mapInfo[id].Ip() < |all|
    && s.mapInfo[id] == WithIp(t.mapInfo[id], all[t.mapInfo[id].Ip()].service.ip)
  }

  /** The same but for addresses, which in `t` are indexes into `all`. */
  ghost predicate Like(s: State, t: State, all: seq<Persisted>) {
    && s.h.Ok() && t.h == Renamed(s.h, all) && s.mapInfo.Keys == t.mapInfo.Keys
    && (forall id {:trigger LikeAt(s, t, all, id)} | id in s.mapInfo :: LikeAt(s, t, all, id))
    && s.nIdCount == t.nIdCount && s.vRandom == t.vRandom && s.nTried == t.nTried && s.vvTried == t.vvTried
    && s.nNew == t.nNew && s.vvNew == t.vvNew && s.nLastGood == t.nLastGood
  }

  lemma LikeCreate(s: State, t: State, all: seq<Persisted>, p: Persisted, k: nat)
    requires Like(s, t, all) && k < |all| && p == all[k]
    ensures Like(Create(s, Revive(p)), Create(t, Revive(Named(p, k))), all)
  {
    var s', t' := Create(s, Revive(p)), Create(t, Revive(Named(p, k)));
    forall id | id in s'.mapInfo ensures LikeAt(s', t', all, id) {
      if id != s.nIdCount {
        assert LikeAt(s, t, all, id);
      }
    }
  }

  lemma LikeCount(s: State, t: State, all: seq<Persisted>, n: int)
    requires Like(s, t, all)
    ensures Like(s.(nNew := n), t.(nNew := n), all)
  {
    forall id | id in s.mapInfo ensures LikeAt(s.(nNew := n), t.(nNew := n), all, id) {
      assert LikeAt(s, t, all, id);
    }
  }

  lemma LikeEnter(s: State, t: State, all: seq<Persisted>, id: int, sl: Slot)
    requires Like(s, t, all) && id in s.mapInfo
    ensures Like(Enter(s, id, sl), Enter(t, id, sl), all)
  {
    var s', t' := Enter(s, id, sl), Enter(t, id, sl);
    assert LikeAt(s, t, all, id);
    forall k | k in s'.mapInfo ensures LikeAt(s', t', all, k) {
      assert LikeAt(s, t, all, k);
    }
  }

  lemma LikePromote(s: State, t: State, all: seq<Persisted>, id: int)
    requires Like(s, t, all) && id in s.mapInfo
    ensures t.h.Ok() && Like(Promote(s, id), Promote(t, id), all)
  {
    var s', t' := Promote(s, id), Promote(t, id);
    assert LikeAt(s, t, all, id);
    SameSlots(s.h, all, s.mapInfo[id].stats.service, t.mapInfo[id].Ip(), 0, 0);
    forall k | k in s'.mapInfo ensures LikeAt(s', t', all, k) {
      assert LikeAt(s, t, all, k);
    }
  }

  lemma LikeCreateNew(s: State, t: State, all: seq<Persisted>, p: Persisted, q: Persisted, k: nat, s1: State, t1: State)
    requires Like(s, t, all) && k < |all| && p == all[k] && q == Named(p, k)
    requires s1 == Create(s, Revive(p)).(nNew := s.nNew + 1) && t1 == Create(t, Revive(q)).(nNew := t.nNew + 1)
    ensures Like(s1, t1, all)
  {
    LikeCreate(s, t, all, p, k);
    LikeCount(Create(s, Revive(p)), Create(t, Revive(q)), all, s.nNew + 1);
  }

  lemma LikeLoadNew(s: State, t: State, all: seq<Persisted>, p: Persisted, q: Persisted, k: nat, usable: bool, u: State, v: State)
    requires Like(s, t, all) && t.h.Ok() && k < |all| && p == all[k] && q == Named(p, k)
    requires u == LoadNew(s, p, usable) && v == LoadNew(t, q, usable)
    ensures Like(u, v, all)
  {
    var s1, t1 := Create(s, Revive(p)).(nNew := s.nNew + 1), Create(t, Revive(q)).(nNew := t.nNew + 1);
    LikeCreateNew(s, t, all, p, q, k, s1, t1);
    SameSlots(s.h, all, p.service, k, 0, p.source);
    LikeEnter(s1, t1, all, s.nIdCount, s.h.NewSlot(p.service, p.source));
  }

  lemma LikeLoadTried(s: State, t: State, all: seq<Persisted>, p: Persisted, q: Persisted, k: nat, u: State, v: State)
    requires Like(s, t, all) && t.h.Ok() && k < |all| && p == all[k] && q == Named(p, k)
    requires u == LoadTried(s, p) && v == LoadTried(t, q)
    ensures Like(u, v, all)
  {
    SameSlots(s.h, all, p.service, k, 0, 0);
    LikeCreate(s, t, all, p, k);
    LikePromote(Create(s, Revive(p)), Create(t, Revive(q)), all, s.nIdCount);
  }

  lemma LikeLoadIndex(s: State, t: State, all: seq<Persisted>, n: nat, b: nat, id: int)
    requires Like(s, t, all)
    ensures t.h.Ok() && Like(LoadIndex(s, n, b, id), LoadIndex(t, n, b, id), all)
  {
    if id in s.mapInfo {
      assert LikeAt(s, t, all, id);
      SameSlots(s.h, all, s.mapInfo[id].stats.service, t.mapInfo[id].Ip(), b, 0);
      LikeEnter(s, t, all, id, s.h.NewSlotIn(s.mapInfo[id].stats.service, b));
    }
  }

  // ----- whole lists -----

  /** The list `ps` is the part of `all` from `m` on, and `qs` is that part with indexes for addresses. */
  ghost predicate Names(all: seq<Persisted>, m: nat, ps: seq<Persisted>, qs: seq<Persisted>) {
    |qs| == |ps| && forall k {:trigger NamesAt(all, m, ps, qs, k)} | 0 <= k < |ps| :: NamesAt(all, m, ps, qs, k)
  }

  predicate NamesAt(all: seq<Persisted>, m: nat, ps: seq<Persisted>, qs: seq<Persisted>, k: nat) {
    k < |ps| && k < |qs| && m + k < |all| && ps[k] == all[m + k] && qs[k] == Named(ps[k], m + k)
  }

  lemma LastNew(s: State, ps: seq<Persisted>, k: nat, n: nat, usable: bool, u: State) returns (u0: State)
    requires s.h.Ok() && n == k + 1 <= |ps| && u == LoadNews(s, ps, n, usable)
    ensures u0 == LoadNews(s, ps, k, usable) && u0.h.Ok() && u == LoadNew(u0, ps[k], usable)
  {
    u0 := LoadNews(s, ps, k, usable);
  }

  lemma {:induction false} LikeNews(s: State, t: State, all: seq<Persisted>, ps: seq<Persisted>, qs: seq<Persisted>, n: nat, usable: bool,
                                    u: State, v: State)
    requires Like(s, t, all) && t.h.Ok() && n <= |ps| && Names(all, 0, ps, qs)
    requires u == LoadNews(s, ps, n, usable) && v == LoadNews(t, qs, n, usable)
    ensures Like(u, v, all)
  {
    if n > 0 {
      var k := n - 1;
      var u0 := LastNew(s, ps, k, n, usable, u);
      var v0 := LastNew(t, qs, k, n, usable, v);
      LikeNews(s, t, all, ps, qs, k, usable, u0, v0);
      assert NamesAt(all, 0, ps, qs, k);
      LikeLoadNew(u0, v0, all, ps[k], qs[k], k, usable, u, v);
    }
  }

  lemma {:induction false} LikeTrieds(s: State, t: State, all: seq<Persisted>, m: nat, ps: seq<Persisted>, qs: seq<Persisted>, n: nat,
                                      u: State, v: State)
    requires Like(s, t, all) && t.h.Ok() && n <= |ps| && Names(all, m, ps, qs)
    requires u == LoadTrieds(s, ps, n) && v == LoadTrieds(t, qs, n)
    ensures Like(u, v, all)
  {
    if n > 0 {
      var k := n - 1;
      var u0 := LastTried(s, ps, k, n, u);
      var v0 := LastTried(t, qs, k, n, v);
      LikeTrieds(s, t, all, m, ps, qs, k, u0, v0);
      assert NamesAt(all, m, ps, qs, k);
      LikeLoadTried(u0, v0, all, ps[k], qs[k], m + k, u, v);
    }
  }

  lemma {:induction false} LikeRow(s: State, t: State, all: seq<Persisted>, nNew: nat, b: nat, row: seq<int>, n: nat)
    requires Like(s, t, all) && n <= |row|
    ensures t.h.Ok() && Like(LoadRow(s, nNew, b, row, n), LoadRow(t, nNew, b, row, n), all)
  {
    if n > 0 {
      LikeRow(s, t, all, nNew, b, row, n - 1);
      LikeLoadIndex(LoadRow(s, nNew, b, row, n - 1), LoadRow(t, nNew, b, row, n - 1), all, nNew, b, row[n - 1]);
    }
  }

  lemma {:induction false} LikeRows(s: State, t: State, all: seq<Persisted>, nNew: nat, rows: seq<seq<int>>, n: nat)
    requires Like(s, t, all) && n <= |rows|
    ensures t.h.Ok() && Like(LoadRows(s, nNew, rows, n), LoadRows(t, nNew, rows, n), all)
  {
    if n > 0 {
      var row := rows[n - 1];
      LikeRows(s, t, all, nNew, rows, n - 1);
      LikeRow(LoadRows(s, nNew, rows, n - 1), LoadRows(t, nNew, rows, n - 1), all, nNew, n - 1, row, |row|);
    }
  }

  /** The stored form with an address of its own for every entry. */
  function Told(img: Image): Image {
    img.(news := NamedAll(img.news, 0), trieds := NamedAll(img.trieds, |img.news|))
  }

  lemma ToldNames(img: Image, all: seq<Persisted>)
    requires all == img.news + img.trieds
    ensures Names(all, 0, img.news, Told(img).news) && Names(all, |img.news|, img.trieds, Told(img).trieds)
  {
  }

  lemma BlankLike(h: Hashing, h': Hashing, all: seq<Persisted>)
    requires h.Ok() && h' == Renamed(h, all)
    ensures h'.Ok() && Like(Blank(h), Blank(h'), all)
  {
  }

  lemma ListsLike(s: State, t: State, img: Image, img': Image, all: seq<Persisted>, usable: bool, u: State, v: State)
    requires Like(s, t, all) && t.h.Ok() && Names(all, 0, img.news, img'.news) && Names(all, |img.news|, img.trieds, img'.trieds)
    requires u == LoadTrieds(LoadNews(s, img.news, |img.news|, usable), img.trieds, |img.trieds|)
    requires v == LoadTrieds(LoadNews(t, img'.news, |img.news|, usable), img'.trieds, |img.trieds|)
    ensures Like(u, v, all)
  {
    var n, m := |img.news|, |img.trieds|;
    var s1, t1 := LoadNews(s, img.news, n, usable), LoadNews(t, img'.news, n, usable);
    LikeNews(s, t, all, img.news, img'.news, n, usable, s1, t1);
    LikeTrieds(s1, t1, all, n, img.trieds, img'.trieds, m, u, v);
  }

  lemma FilledLike(h: Hashing, h': Hashing, img: Image, img': Image, all: seq<Persisted>, u: State, v: State)
    requires h.Ok() && all == img.news + img.trieds && h' == Renamed(h, all) && img' == Told(img)
    requires u == Filled(h, img) && h'.Ok() && v == Filled(h', img')
    ensures Like(u, v, all)
  {
    var n, m, usable := |img.news|, |img.trieds|, Usable(h, img);
    var s0, t0 := Blank(h), Blank(h');
    BlankLike(h, h', all);
    ToldNames(img, all);
    var s, t := LoadTrieds(LoadNews(s0, img.news, n, usable), img.trieds, m), LoadTrieds(LoadNews(t0, img'.news, n, usable), img'.trieds, m);
    ListsLike(s0, t0, img, img', all, usable, s, t);
    if usable {
      LikeRows(s, t, all, n, img.rows, |img.rows|);
    }
  }

  lemma ToldIsDistinct(img: Image)
    ensures DistinctIps(Told(img).news + Told(img).trieds)
  {
    var ps := Told(img).news + Told(img).trieds;
    assert forall k | 0 <= k < |ps| :: ps[k].service.ip == k;
  }

  // ----- what `mapAddr` holds before the last pass -----

  ghost predicate KnownAt(s: State, id: int) {
    id in s.mapInfo && id < s.nIdCount && s.mapInfo[id].Ip() in s.mapAddr
  }

  /** Every address has an entry that has it, though perhaps not the only one. */
  ghost predicate Known(s: State) {
    && (forall id {:trigger KnownAt(s, id)} | id in s.mapInfo :: KnownAt(s, id))
    && (forall ip {:trigger IpOk(s, ip)} | ip in s.mapAddr :: IpOk(s, ip))
  }

  lemma KnownCreate(s: State, st: Stats)
    requires Known(s)
    ensures Known(Create(s, st))
  {
    var s' := Create(s, st);
    forall id | id in s'.mapInfo ensures KnownAt(s', id) {
      if id != s.nIdCount {
        assert KnownAt(s, id);
      }
    }
    forall ip | ip in s'.mapAddr ensures IpOk(s', ip) {
      if ip == st.service.ip {
        assert s'.mapInfo[s'.mapAddr[ip]].stats == st;
      } else {
        assert IpOk(s, ip) && KnownAt(s, s.mapAddr[ip]);
        assert s'.mapInfo[s'.mapAddr[ip]] == s.mapInfo[s.mapAddr[ip]];
      }
    }
  }

  /** Moves that keep addresses and entries. */
  lemma KnownSame(s: State, s': State)
    requires Known(s) && s'.mapInfo.Keys == s.mapInfo.Keys && s'.mapAddr == s.mapAddr && s'.nIdCount == s.nIdCount
    requires forall id | id in s.mapInfo :: s'.mapInfo[id].Ip() == s.mapInfo[id].Ip()
    ensures Known(s')
  {
    forall id | id in s'.mapInfo ensures KnownAt(s', id) {
      assert KnownAt(s, id);
    }
    forall ip | ip in s'.mapAddr ensures IpOk(s', ip) {
      assert IpOk(s, ip);
      var id := s.mapAddr[ip];
      assert s'.mapInfo[id].Ip() == s.mapInfo[id].Ip() == ip;
    }
  }

  lemma KnownLoadNew(s: State, p: Persisted, usable: bool)
    requires Known(s) && s.h.Ok()
    ensures Known(LoadNew(s, p, usable))
  {
    KnownCreate(s, Revive(p));
    KnownSame(Create(s, Revive(p)), LoadNew(s, p, usable));
  }

  lemma {:induction false} KnownNews(s: State, ps: seq<Persisted>, n: nat, usable: bool)
    requires Known(s) && s.h.Ok() && n <= |ps|
    ensures Known(LoadNews(s, ps, n, usable))
  {
    if n > 0 {
      KnownNews(s, ps, n - 1, usable);
      KnownLoadNew(LoadNews(s, ps, n - 1, usable), ps[n - 1], usable);
    }
  }

  lemma {:induction false} KnownTrieds(s: State, ps: seq<Persisted>, n: nat)
    requires Known(s) && s.h.Ok() && n <= |ps|
    ensures Known(LoadTrieds(s, ps, n))
  {
    if n > 0 {
      KnownTrieds(s, ps, n - 1);
      var s0, st := LoadTrieds(s, ps, n - 1), Revive(ps[n - 1]);
      KnownCreate(s0, st);
      if s0.h.TriedSlot(ps[n - 1].service) !in s0.vvTried {
        KnownSame(Create(s0, st), LoadTried(s0, ps[n - 1]));
      }
    }
  }

  lemma {:induction false} KnownRow(s: State, nNew: nat, b: nat, row: seq<int>, n: nat)
    requires Known(s) && s.h.Ok() && n <= |row|
    ensures Known(LoadRow(s, nNew, b, row, n))
  {
    if n > 0 {
      KnownRow(s, nNew, b, row, n - 1);
      KnownSame(LoadRow(s, nNew, b, row, n - 1), LoadRow(s, nNew, b, row, n));
    }
  }

  lemma {:induction false} KnownRows(s: State, nNew: nat, rows: seq<seq<int>>, n: nat)
    requires Known(s) && s.h.Ok() && n <= |rows|
    ensures Known(LoadRows(s, nNew, rows, n))
  {
    if n > 0 {
      KnownRows(s, nNew, rows, n - 1);
      KnownRow(LoadRows(s, nNew, rows, n - 1), nNew, n - 1, rows[n - 1], |rows[n - 1]|);
    }
  }

  lemma FilledKnown(h: Hashing, img: Image)
    requires h.Ok()
    ensures Known(Filled(h, img))
  {
    var s1 := LoadNews(Blank(h), img.news, |img.news|, Usable(h, img));
    KnownNews(Blank(h), img.news, |img.news|, Usable(h, img));
    KnownTrieds(s1, img.trieds, |img.trieds|);
    if Usable(h, img) {
      KnownRows(LoadTrieds(s1, img.trieds, |img.trieds|), |img.news|, img.rows, |img.rows|);
    }
  }

  // ----- the last pass -----

  /** Among the first `n` entries, one without a slot has the address. */
  ghost predicate Erased(s: State, n: nat, ip: Ip) {
    exists id | 0 <= id < n && Slotless(s, id) :: s.mapInfo[id].Ip() == ip
  }

  ghost predicate PrunedId(s: State, u: State, n: nat, id: int) {
    && (id in u.mapInfo <==> id in s.mapInfo && !(0 <= id < n && Slotless(s, id)))
    && (id in u.mapInfo ==> u.mapInfo[id].(nRandomPos := 0) == s.mapInfo[id].(nRandomPos := 0))
  }

  ghost predicate PrunedIp(s: State, u: State, n: nat, ip: Ip) {
    Get(u.mapAddr, ip) == if Erased(s, n, ip) then None else Get(s.mapAddr, ip)
  }

  /** What the pass over the first `n` entries leaves. */
  ghost predicate Pruned(s: State, u: State, n: nat) {
    && (forall id {:trigger PrunedId(s, u, n, id)} :: PrunedId(s, u, n, id))
    && (forall ip {:trigger PrunedIp(s, u, n, ip)} :: PrunedIp(s, u, n, ip))
  }

  lemma ErasedNext(s: State, n: nat, ip: Ip)
    ensures Erased(s, n + 1, ip) <==> Erased(s, n, ip) || (Slotless(s, n) && s.mapInfo[n].Ip() == ip)
  {
  }

  lemma LikePos(s: State, t: State, all: seq<Persisted>, i: int)
    requires Like(s, t, all)
    ensures PosOk(s, i) <==> PosOk(t, i)
  {
    if 0 <= i < |s.vRandom| && s.vRandom[i] in s.mapInfo {
      assert LikeAt(s, t, all, s.vRandom[i]);
    }
  }

  lemma LikeSwap(s: State, t: State, all: seq<Persisted>, i: int, j: int)
    requires Like(s, t, all) && PosOk(s, i) && PosOk(s, j) && PosOk(t, i) && PosOk(t, j)
    ensures Like(Swap(s, i, j), Swap(t, i, j), all)
  {
    var s', t' := Swap(s, i, j), Swap(t, i, j);
    forall k | k in s'.mapInfo ensures LikeAt(s', t', all, k) {
      assert LikeAt(s, t, all, k);
    }
  }

  lemma LikeDrop(s: State, t: State, all: seq<Persisted>, id: int)
    requires Like(s, t, all) && id in s.mapInfo && |s.vRandom| > 0
    ensures Like(Drop(s, id), Drop(t, id), all)
  {
    var s', t' := Drop(s, id), Drop(t, id);
    forall k | k in s'.mapInfo ensures LikeAt(s', t', all, k) {
      assert LikeAt(s, t, all, k);
    }
  }

  lemma LikeDelete(s: State, t: State, all: seq<Persisted>, id: int)
    requires Like(s, t, all) && id in t.mapInfo && PosOk(t, t.mapInfo[id].nRandomPos) && PosOk(t, |t.vRandom| - 1)
    ensures id in s.mapInfo && PosOk(s, s.mapInfo[id].nRandomPos) && PosOk(s, |s.vRandom| - 1)
    ensures Like(Delete(s, id), Delete(t, id), all)
  {
    assert LikeAt(s, t, all, id);
    LikePos(s, t, all, t.mapInfo[id].nRandomPos);
    LikePos(s, t, all, |t.vRandom| - 1);
    var i, j := t.mapInfo[id].nRandomPos, |t.vRandom| - 1;
    LikeSwap(s, t, all, i, j);
    LikeDrop(Swap(s, i, j), Swap(t, i, j), all, id);
  }

  lemma DeletePruned(s: State, u: State, n: nat)
    requires Pruned(s, u, n) && Slotless(u, n) && PosOk(u, u.mapInfo[n].nRandomPos) && PosOk(u, |u.vRandom| - 1)
    ensures Pruned(s, Delete(u, n), n + 1)
  {
    var u', m := Delete(u, n), n + 1;
    assert PrunedId(s, u, n, n);
    forall id ensures PrunedId(s, u', m, id) {
      assert PrunedId(s, u, n, id);
    }
    forall ip ensures PrunedIp(s, u', m, ip) {
      assert PrunedIp(s, u, n, ip);
      ErasedNext(s, n, ip);
    }
  }

  lemma KeptPruned(s: State, u: State, n: nat)
    requires Pruned(s, u, n) && !Slotless(u, n)
    ensures Pruned(s, u, n + 1)
  {
    var m := n + 1;
    assert PrunedId(s, u, n, n);
    forall id ensures PrunedId(s, u, m, id) {
      assert PrunedId(s, u, n, id);
    }
    forall ip ensures PrunedIp(s, u, m, ip) {
      assert PrunedIp(s, u, n, ip);
      ErasedNext(s, n, ip);
    }
  }

  lemma PrunedOne(s: State, u: State, v: State, all: seq<Persisted>, n: nat)
    requires Pruned(s, u, n) && Like(u, v, all) && Wired(v)
    ensures Like(PruneOne(u, n), PruneOne(v, n), all) && Pruned(s, PruneOne(u, n), n + 1)
  {
    if n in u.mapInfo {
      assert LikeAt(u, v, all, n);
    }
    if Slotless(u, n) {
      assert IdOk(v, n);
      assert PosOk(v, v.mapInfo[n].nRandomPos) && PosOk(v, |v.vRandom| - 1);
      LikeDelete(u, v, all, n);
      DeletePruned(s, u, n);
    } else {
      KeptPruned(s, u, n);
    }
  }

  lemma {:induction false} PruneLike(s: State, t: State, all: seq<Persisted>, a: Abs, n: nat, u: State, v: State)
    requires Like(s, t, all) && Linked(t, {}, NewIds(t)) && Shows(t, a) && u == Prune(s, n) && v == Prune(t, n)
    ensures Like(u, v, all) && Pruned(s, u, n)
  {
    if n == 0 {
      forall ip ensures PrunedIp(s, u, n, ip) {}
      forall id ensures PrunedId(s, u, n, id) {}
    } else {
      var k := n - 1;
      var u0, v0 := Prune(s, k), Prune(t, k);
      PruneLike(s, t, all, a, k, u0, v0);
      var b := PruneKeeps(t, a, k, v0);
      PrunedOne(s, u0, v0, all, k);
    }
  }

  // ----- the exact condition -----

  predicate Clash(s: State, i: int, j: int) {
    i in s.mapInfo && j in s.mapInfo && i != j && s.mapInfo[i].Ip() == s.mapInfo[j].Ip()
  }

  /** Entries that share an address are new ones that got no slot. */
  ghost predicate Unambiguous(s: State) {
    forall i, j {:trigger Clash(s, i, j)} | Clash(s, i, j) :: Slotless(s, i)
  }

  /** Entry and address lead to each other. */
  ghost predicate AddressOk(s: State) {
    && (forall id | id in s.mapInfo :: Get(s.mapAddr, s.mapInfo[id].Ip()) == Some(id))
    && (forall ip {:trigger IpOk(s, ip)} | ip in s.mapAddr :: IpOk(s, ip))
  }

  lemma LikeInv(s: State, t: State, all: seq<Persisted>)
    requires Like(s, t, all) && Inv(t)
    ensures Inv(s) <==> AddressOk(s)
  {
    if Inv(s) {
      forall id | id in s.mapInfo ensures Get(s.mapAddr, s.mapInfo[id].Ip()) == Some(id) {
        assert IdOk(s, id);
      }
    }
    if AddressOk(s) {
      forall id | id in s.mapInfo ensures IdOk(s, id) {
        LikeId(s, t, all, id);
      }
      forall i | 0 <= i < |s.vRandom| ensures PosOk(s, i) {
        assert PosOk(t, i);
        LikePos(s, t, all, i);
      }
      forall sl | sl in s.vvTried ensures TriedSlotOk(s, sl) {
        LikeSlots(s, t, all, sl);
      }
      forall sl | sl in s.vvNew ensures NewSlotOk(s, sl) {
        LikeSlots(s, t, all, sl);
      }
      LikeCounts(s, t, all);
    }
  }

  lemma LikeId(s: State, t: State, all: seq<Persisted>, id: int)
    requires Like(s, t, all) && Wired(t) && id in s.mapInfo && Get(s.mapAddr, s.mapInfo[id].Ip()) == Some(id)
    ensures IdOk(s, id)
  {
    assert LikeAt(s, t, all, id) && IdOk(t, id);
    SameSlots(s.h, all, s.mapInfo[id].stats.service, t.mapInfo[id].Ip(), 0, 0);
  }

  lemma LikeSlots(s: State, t: State, all: seq<Persisted>, sl: Slot)
    requires Like(s, t, all) && Wired(t)
    ensures sl in s.vvTried ==> TriedSlotOk(s, sl)
    ensures sl in s.vvNew ==> NewSlotOk(s, sl)
  {
    if sl in s.vvTried {
      var id := s.vvTried[sl];
      assert TriedSlotOk(t, sl) && LikeAt(s, t, all, id);
      SameSlots(s.h, all, s.mapInfo[id].stats.service, t.mapInfo[id].Ip(), 0, 0);
    }
    if sl in s.vvNew {
      var id := s.vvNew[sl];
      assert NewSlotOk(t, sl) && LikeAt(s, t, all, id);
      SameSlots(s.h, all, s.mapInfo[id].stats.service, t.mapInfo[id].Ip(), sl.bucket, 0);
    }
  }

  lemma LikeCounts(s: State, t: State, all: seq<Persisted>)
    requires Like(s, t, all) && Counted(t, {}) && Referenced(t, {})
    ensures Counted(s, {}) && Referenced(s, {})
  {
    forall id | id in s.mapInfo
      ensures s.mapInfo[id].fInTried == t.mapInfo[id].fInTried && s.mapInfo[id].nRefCount == t.mapInfo[id].nRefCount
    {
      assert LikeAt(s, t, all, id);
    }
    assert NewIds(s) == NewIds(t) && TriedIds(s) == TriedIds(t);
  }

  lemma AddressOkIff(s: State, u: State, n: nat)
    requires Known(s) && Pruned(s, u, n) && n == s.nIdCount && forall id | id in s.mapInfo :: id >= 0
    ensures AddressOk(u) <==> Unambiguous(s)
  {
    if Unambiguous(s) {
      forall id | id in u.mapInfo ensures Get(u.mapAddr, u.mapInfo[id].Ip()) == Some(id) {
        assert PrunedId(s, u, n, id);
        HeldIsListed(s, u, n, id);
      }
      forall ip | ip in u.mapAddr ensures IpOk(u, ip) {
        ListedIsHeld(s, u, n, ip);
      }
    }
    if AddressOk(u) {
      forall i, j | Clash(s, i, j) ensures Slotless(s, i) {
        NotBoth(s, u, n, i, j);
      }
    }
  }

  lemma HeldIsListed(s: State, u: State, n: nat, id: int)
    requires Known(s) && Pruned(s, u, n) && n == s.nIdCount && Unambiguous(s) && id in u.mapInfo && id >= 0
    ensures Get(u.mapAddr, u.mapInfo[id].Ip()) == Some(id)
  {
    assert PrunedId(s, u, n, id) && KnownAt(s, id);
    var ip := s.mapInfo[id].Ip();
    assert IpOk(s, ip) && PrunedIp(s, u, n, ip);
    assert u.mapInfo[id].(nRandomPos := 0).Ip() == u.mapInfo[id].Ip() == ip;
    forall j | j in s.mapInfo && s.mapInfo[j].Ip() == ip ensures j == id {
      assert j == id || Clash(s, id, j);
    }
  }

  lemma ListedIsHeld(s: State, u: State, n: nat, ip: Ip)
    requires Known(s) && Pruned(s, u, n) && n == s.nIdCount && ip in u.mapAddr
    ensures IpOk(u, ip)
  {
    assert PrunedIp(s, u, n, ip) && IpOk(s, ip);
    var id := s.mapAddr[ip];
    assert KnownAt(s, id) && PrunedId(s, u, n, id);
  }

  lemma NotBoth(s: State, u: State, n: nat, i: int, j: int)
    requires Known(s) && Pruned(s, u, n) && n == s.nIdCount && AddressOk(u) && forall id | id in s.mapInfo :: id >= 0
    requires Clash(s, i, j)
    ensures Slotless(s, i)
  {
    assert PrunedId(s, u, n, i) && PrunedId(s, u, n, j) && KnownAt(s, i) && KnownAt(s, j);
    assert PrunedIp(s, u, n, s.mapInfo[i].Ip());
  }

  /** Reading gives a consistent manager iff entries that share an address were all left without a slot before the last pass. */
  lemma ConsistentIff(h: Hashing, img: Image)
    requires h.Ok()
    ensures Inv(Loaded(h, img)) <==> Unambiguous(Filled(h, img))
  {
    var all := img.news + img.trieds;
    var h', s := Renamed(h, all), Filled(h, img);
    var t, a := Filled(h', Told(img)), AbsFilled(h', Told(img));
    FilledLike(h, h', img, Told(img), all, s, t);
    FilledKnown(h, img);
    ToldIsDistinct(img);
    FilledKeeps(h', Told(img));
    PruneAll(t, a);
    PruneLike(s, t, all, a, s.nIdCount, Prune(s, s.nIdCount), Prune(t, s.nIdCount));
    LikeInv(Loaded(h, img), Prune(t, t.nIdCount), all);
    forall id | id in s.mapInfo ensures id >= 0 {
      assert IdOk(t, id);
    }
    AddressOkIff(s, Loaded(h, img), s.nIdCount);
  }

  /** An address in both lists: unless the stored slots are used, reading leaves two entries with it. */
  lemma InBothLists(h: Hashing, img: Image, p: Persisted)
    requires h.Ok() && img.news == [p] && img.trieds == [p] && !Usable(h, img)
    ensures !Inv(Loaded(h, img))
  {
    ConsistentIff(h, img);
    var s1 := LoadNew(Blank(h), p, false);
    assert LoadNews(Blank(h), img.news, 0, false) == Blank(h) && LoadNews(Blank(h), img.news, 1, false) == s1;
    assert LoadTrieds(s1, img.trieds, 0) == s1 && LoadTrieds(s1, img.trieds, 1) == LoadTried(s1, p);
    var s := LoadTried(s1, p);
    assert Clash(s, 1, 0) && !Slotless(s, 1);
  }
}
