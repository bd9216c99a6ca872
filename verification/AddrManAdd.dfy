/** Adding an address (`Add_`, src/addrman.cpp:242-313), on the state as a value. */
module AddrManAdd {
  import opened Options
  import opened Powers
  import opened AddrManModel
  import opened AddrManMoves
  import opened AddrManSpec

  ghost predicate PlacePre(s: State, id: int, sl: Slot) {
    && id in s.mapInfo && ClearPre(s, sl)
    && (sl in s.vvNew && s.vvNew[sl] != id ==> id in ClearNew(s, sl).mapInfo)
    && PosOk(s, s.mapInfo[id].nRandomPos) && PosOk(s, |s.vRandom| - 1)
  }

  /** The overwrite test of `Add_`. */
  predicate Overwrites(s: State, id: int, sl: Slot, nNow: int)
    requires id in s.mapInfo && sl in s.vvNew && s.vvNew[sl] in s.mapInfo
  {
    var existing := s.mapInfo[s.vvNew[sl]];
    existing.stats.IsTerrible(nNow) || (existing.nRefCount > 1 && s.mapInfo[id].nRefCount == 0)
  }

  ghost function Place(s: State, id: int, sl: Slot, nNow: int): State
    requires PlacePre(s, id, sl)
  {
    if Get(s.vvNew, sl) == Some(id) then s
    else if sl !in s.vvNew || Overwrites(s, id, sl, nNow) then Enter(ClearNew(s, sl), id, sl)
    else if s.mapInfo[id].nRefCount == 0 then Delete(s, id)
    else s
  }

  lemma PlacePreHolds(s: State, id: int, sl: Slot)
    requires Wired(s) && id in s.mapInfo
    ensures PlacePre(s, id, sl)
  {
    ClearPreHolds(s, sl);
    assert IdOk(s, id);
    assert PosOk(s, s.mapInfo[id].nRandomPos);
    assert PosOk(s, |s.vRandom| - 1);
    if sl in s.vvNew && s.vvNew[sl] != id {
      ClearFrame(s, sl, id);
    }
  }

  /** The slot is free or its occupant may go: clear it and enter. */
  lemma EnterCleared(s: State, id: int, sl: Slot, a: Abs)
    requires Linked(s, {}, {id}) && Shows(s, a) && id in s.mapInfo && !s.mapInfo[id].fInTried
    requires s.mapInfo[id].nRefCount < BUCKETS_PER_ADDRESS && Get(s.vvNew, sl) != Some(id)
    requires sl.bucket < s.h.nNewBuckets && sl == s.h.NewSlotIn(s.mapInfo[id].stats.service, sl.bucket)
    ensures ClearPre(s, sl) && id in ClearNew(s, sl).mapInfo
    ensures
      var a1 := AbsClear(a, sl);
      && Inv(Enter(ClearNew(s, sl), id, sl))
      && Shows(Enter(ClearNew(s, sl), id, sl), a1.(inNew := a1.inNew[sl := s.mapInfo[id].Ip()]))
  {
    ClearKeeps(s, sl, {}, {id}, a);
    ClearFrame(s, sl, id);
    assert IdOk(s, id);
    var s1 := ClearNew(s, sl);
    EnterWired(s1, id, sl);
    EnterCounts(s1, id, sl, {}, {id});
    EnterShows(s1, id, sl, AbsClear(a, sl));
    assert {id} - {id} == {};
  }

  lemma OccupantRead(s: State, id: int, sl: Slot, nNow: int, a: Abs)
    requires Wired(s) && Shows(s, a) && id in s.mapInfo && !s.mapInfo[id].fInTried
    ensures Get(a.inNew, sl) == Some(s.mapInfo[id].Ip()) <==> Get(s.vvNew, sl) == Some(id)
    ensures sl in s.vvNew <==> sl in a.inNew
    ensures sl in s.vvNew ==> s.vvNew[sl] in s.mapInfo && (Overwrites(s, id, sl, nNow) <==> MayReplace(a, a.inNew[sl], s.mapInfo[id].Ip(), nNow))
  {
    assert IpIn(s, s.vvNew, sl) == Get(a.inNew, sl);
    assert IdOk(s, id);
    ReadEntry(s, id, a);
    if sl in s.vvNew {
      assert NewSlotOk(s, sl);
      assert IdOk(s, s.vvNew[sl]);
      ReadEntry(s, s.vvNew[sl], a);
    }
  }

  lemma PlaceKeeps(s: State, id: int, source: Ip, nNow: int, a: Abs)
    requires Linked(s, {}, {id}) && Shows(s, a) && id in s.mapInfo && !s.mapInfo[id].fInTried
    requires s.mapInfo[id].nRefCount < BUCKETS_PER_ADDRESS
    ensures
      var sl := s.h.NewSlot(s.mapInfo[id].stats.service, source);
      && PlacePre(s, id, sl) && s.mapInfo[id].Ip() in a.infos
      && Inv(Place(s, id, sl, nNow)) && Shows(Place(s, id, sl, nNow), AbsPlace(s.h, a, s.mapInfo[id].Ip(), source, nNow))
  {
    var sl := s.h.NewSlot(s.mapInfo[id].stats.service, source);
    PlacePreHolds(s, id, sl);
    ReadEntry(s, id, a);
    OccupantRead(s, id, sl, nNow, a);
    if Get(s.vvNew, sl) == Some(id) {
      assert IdOk(s, id);
      assert sl in SlotsOf(s.vvNew, id);
    } else if sl !in s.vvNew || Overwrites(s, id, sl, nNow) {
      EnterCleared(s, id, sl, a);
    } else if s.mapInfo[id].nRefCount == 0 {
      DeleteKeeps(s, id, {}, {id}, a);
    }
  }

  /** A first announcement: the entry exists and is counted, but holds no slot yet. */
  function Created(s: State, addr: Address, source: Ip, penalty: int): State {
    var s1 := Create(s, NewStats(addr, source));
    Restat(s1, s.nIdCount, FirstStats(addr, source, penalty)).(nNew := s.nNew + 1)
  }

  lemma CreatedKeeps(s: State, addr: Address, source: Ip, penalty: int, a: Abs)
    requires Inv(s) && Shows(s, a) && addr.service.ip !in s.mapAddr
    ensures Linked(Created(s, addr, source, penalty), {}, {s.nIdCount})
    ensures Shows(Created(s, addr, source, penalty), WithStats(a, FirstStats(addr, source, penalty)))
  {
    var s1, id, st := Create(s, NewStats(addr, source)), s.nIdCount, FirstStats(addr, source, penalty);
    var a1 := WithStats(a, NewStats(addr, source));
    FreshId(s);
    CreateWired(s, NewStats(addr, source));
    CreateCounts(s, NewStats(addr, source), {}, {});
    CreateShows(s, NewStats(addr, source), a);
    assert {} + {id} == {id};
    RestatKeeps(s1, id, st, {id}, {id});
    RestatShows(s1, id, st, a1);
    var s2 := Restat(s1, id, st);
    assert a1.infos[addr.service.ip := st] == a.infos[addr.service.ip := st];
    CountOnly(s2, s.nNew + 1, WithStats(a, st));
    assert NewIds(s2.(nNew := s.nNew + 1)) == NewIds(s2) && TriedIds(s2.(nNew := s.nNew + 1)) == TriedIds(s2);
  }

  function Heard(s: State, id: int, addr: Address, penalty: int, nNow: int): State
    requires id in s.mapInfo
  {
    Restat(s, id, HeardStats(s.mapInfo[id].stats, addr, penalty, nNow))
  }

  /** The four early returns of `Add_` for a known entry. */
  predicate Unwanted(e: Info, addr: Address, rnd: nat) {
    || addr.nTime == 0 || (e.stats.nTime != 0 && addr.nTime <= e.stats.nTime)
    || e.fInTried || e.nRefCount == BUCKETS_PER_ADDRESS
    || (e.nRefCount >= 0 && rnd % Pow2(e.nRefCount) != 0)
  }

  lemma HeardKeeps(s: State, id: int, addr: Address, penalty: int, nNow: int, rnd: nat, a: Abs)
    requires Inv(s) && Shows(s, a) && id in s.mapInfo && s.mapInfo[id].Ip() == addr.service.ip
    ensures
      var s1 := Heard(s, id, addr, penalty, nNow);
      && addr.service.ip in a.infos && a.infos[addr.service.ip] == s.mapInfo[id].stats
      && var a1 := a.(infos := a.infos[addr.service.ip := HeardStats(a.infos[addr.service.ip], addr, penalty, nNow)]);
      && Inv(s1) && Shows(s1, a1) && (Unwanted(s1.mapInfo[id], addr, rnd) <==> !WantsMore(s.h, a1, addr, rnd))
      && (!Unwanted(s1.mapInfo[id], addr, rnd) ==> !s1.mapInfo[id].fInTried && s1.mapInfo[id].nRefCount < BUCKETS_PER_ADDRESS)
  {
    var st, s1 := HeardStats(s.mapInfo[id].stats, addr, penalty, nNow), Heard(s, id, addr, penalty, nNow);
    ReadEntry(s, id, a);
    RestatKeeps(s, id, st, {}, {});
    RestatShows(s, id, st, a);
    ReadEntry(s1, id, WithStats(a, st));
    assert IdOk(s1, id);
  }
}
