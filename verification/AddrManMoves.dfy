/** Moving an entry between the new and tried tables (`MakeTried`, src/addrman.cpp:142-188). */
module AddrManMoves {
  import opened Options
  import opened AddrManModel

  // Strip: the entry leaves every slot of the new table and is no longer counted as new.

  function Strip(s: State, id: int): State
    requires id in s.mapInfo
  {
    s.(vvNew := map sl | sl in s.vvNew && s.vvNew[sl] != id :: s.vvNew[sl],
       mapInfo := Recount(s.mapInfo, id, s.mapInfo[id].nRefCount - |SlotsOf(s.vvNew, id)|),
       nNew := s.nNew - 1)
  }

  lemma StripSlots(s: State, id: int, k: int)
    requires id in s.mapInfo
    ensures SlotsOf(Strip(s, id).vvNew, k) == if k == id then {} else SlotsOf(s.vvNew, k)
  {
    assert forall x :: x in SlotsOf(Strip(s, id).vvNew, k) <==> x in SlotsOf(s.vvNew, k) && k != id;
  }

  lemma StripId(s: State, id: int, k: int)
    requires s.h.Ok() && IdOk(s, id) && IdOk(s, k) && !s.mapInfo[id].fInTried
    ensures IdOk(Strip(s, id), k)
  {
    StripSlots(s, id, k);
  }

  lemma StripWired(s: State, id: int)
    requires Wired(s) && id in s.mapInfo && !s.mapInfo[id].fInTried
    ensures Wired(Strip(s, id)) && Strip(s, id).mapInfo[id].nRefCount == 0
  {
    var s' := Strip(s, id);
    assert IdOk(s, id);
    forall k | k in s'.mapInfo ensures IdOk(s', k) { assert IdOk(s, k); StripId(s, id, k); }
    forall ip | ip in s'.mapAddr ensures IpOk(s', ip) { assert IpOk(s, ip); }
    forall k | 0 <= k < |s'.vRandom| ensures PosOk(s', k) { assert PosOk(s, k); }
    forall x | x in s'.vvTried ensures TriedSlotOk(s', x) { assert TriedSlotOk(s, x); }
    forall x | x in s'.vvNew ensures NewSlotOk(s', x) { assert NewSlotOk(s, x); }
  }

  lemma StripCounts(s: State, id: int)
    requires id in s.mapInfo && !s.mapInfo[id].fInTried && s.mapInfo[id].nRefCount == |SlotsOf(s.vvNew, id)|
    requires Counted(s, {}) && Referenced(s, {})
    ensures Counted(Strip(s, id), {id}) && Referenced(Strip(s, id), {id})
  {
    var s' := Strip(s, id);
    assert forall k :: k in NewIds(s') <==> k in NewIds(s);
    assert forall k :: k in TriedIds(s') <==> k in TriedIds(s);
    assert NewIds(s') == NewIds(s) && TriedIds(s') == TriedIds(s);
  }

  function AbsStrip(a: Abs, ip: Ip): Abs {
    a.(inNew := map sl | sl in a.inNew && a.inNew[sl] != ip :: a.inNew[sl])
  }

  lemma StripShows(s: State, id: int, a: Abs)
    requires Wired(s) && id in s.mapInfo && Shows(s, a)
    ensures Shows(Strip(s, id), AbsStrip(a, s.mapInfo[id].Ip()))
  {
    var s', a' := Strip(s, id), AbsStrip(a, s.mapInfo[id].Ip());
    assert IdOk(s, id);
    forall ip ensures StatsAt(s', ip) == Get(a'.infos, ip) { assert StatsAt(s, ip) == Get(a.infos, ip); }
    forall x ensures IpIn(s', s'.vvNew, x) == Get(a'.inNew, x) {
      assert IpIn(s, s.vvNew, x) == Get(a.inNew, x);
      if x in s.vvNew && s.vvNew[x] in s.mapInfo { assert IdOk(s, s.vvNew[x]); }
    }
    forall x ensures IpIn(s', s'.vvTried, x) == Get(a'.inTried, x) { assert IpIn(s, s.vvTried, x) == Get(a.inTried, x); }
  }

  // Evict: the occupant of a tried slot steps out of both tables.

  function Evict(s: State, sl: Slot): State
    requires sl in s.vvTried && s.vvTried[sl] in s.mapInfo
  {
    var id := s.vvTried[sl];
    s.(vvTried := s.vvTried - {sl}, mapInfo := s.mapInfo[id := s.mapInfo[id].(fInTried := false)], nTried := s.nTried - 1)
  }

  lemma EvictId(s: State, sl: Slot, k: int)
    requires s.h.Ok() && TriedSlotOk(s, sl) && IdOk(s, k)
    requires forall x | x in s.vvNew :: s.vvNew[x] != s.vvTried[sl]
    ensures IdOk(Evict(s, sl), k)
  {
    assert SlotsOf(s.vvNew, s.vvTried[sl]) == {};
  }

  lemma EvictWired(s: State, sl: Slot)
    requires Wired(s) && TriedSlotOk(s, sl)
    ensures Wired(Evict(s, sl)) && Evict(s, sl).mapInfo[s.vvTried[sl]].nRefCount == 0
  {
    var s', id := Evict(s, sl), s.vvTried[sl];
    assert IdOk(s, id);
    forall x | x in s.vvNew ensures s.vvNew[x] != id { assert NewSlotOk(s, x); }
    forall k | k in s'.mapInfo ensures IdOk(s', k) { assert IdOk(s, k); EvictId(s, sl, k); }
    forall ip | ip in s'.mapAddr ensures IpOk(s', ip) { assert IpOk(s, ip); }
    forall k | 0 <= k < |s'.vRandom| ensures PosOk(s', k) { assert PosOk(s, k); }
    forall x | x in s'.vvTried ensures TriedSlotOk(s', x) { assert TriedSlotOk(s, x); }
    forall x | x in s'.vvNew ensures NewSlotOk(s', x) { assert NewSlotOk(s, x); }
  }

  lemma EvictCounts(s: State, sl: Slot, limbo: set<int>)
    requires s.h.Ok() && TriedSlotOk(s, sl) && s.mapInfo[s.vvTried[sl]].nRefCount == 0
    requires Counted(s, limbo) && Referenced(s, limbo)
    ensures s.vvTried[sl] !in limbo
    ensures Counted(Evict(s, sl), limbo + {s.vvTried[sl]}) && Referenced(Evict(s, sl), limbo + {s.vvTried[sl]})
  {
    var s', id := Evict(s, sl), s.vvTried[sl];
    assert id in TriedIds(s);
    assert forall k :: k in NewIds(s') <==> k in NewIds(s) || k == id;
    assert forall k :: k in TriedIds(s') <==> k in TriedIds(s) && k != id;
    assert NewIds(s') == NewIds(s) + {id} && TriedIds(s') == TriedIds(s) - {id};
  }

  lemma EvictShows(s: State, sl: Slot, a: Abs)
    requires s.h.Ok() && TriedSlotOk(s, sl) && Shows(s, a)
    ensures Shows(Evict(s, sl), a.(inTried := a.inTried - {sl}))
  {
    var s' := Evict(s, sl);
    forall ip ensures StatsAt(s', ip) == Get(a.infos, ip) { assert StatsAt(s, ip) == Get(a.infos, ip); }
    forall x ensures IpIn(s', s'.vvNew, x) == Get(a.inNew, x) { assert IpIn(s, s.vvNew, x) == Get(a.inNew, x); }
    forall x ensures IpIn(s', s'.vvTried, x) == Get(a.inTried - {sl}, x) { assert IpIn(s, s.vvTried, x) == Get(a.inTried, x); }
  }

  // Enter: an entry takes a free slot of the new table.

  function Enter(s: State, id: int, sl: Slot): State
    requires id in s.mapInfo
  {
    s.(mapInfo := Recount(s.mapInfo, id, s.mapInfo[id].nRefCount + 1), vvNew := s.vvNew[sl := id])
  }

  ghost predicate CanEnter(s: State, id: int, sl: Slot)
    requires s.h.Ok()
  {
    && id in s.mapInfo && !s.mapInfo[id].fInTried && s.mapInfo[id].nRefCount < BUCKETS_PER_ADDRESS
    && sl !in s.vvNew && sl.bucket < s.h.nNewBuckets && sl == s.h.NewSlotIn(s.mapInfo[id].stats.service, sl.bucket)
  }

  lemma SlotsWith(t: Table, sl: Slot, id: int, k: int)
    requires sl !in t
    ensures SlotsOf(t[sl := id], k) == if k == id then SlotsOf(t, k) + {sl} else SlotsOf(t, k)
    ensures k == id ==> |SlotsOf(t[sl := id], k)| == |SlotsOf(t, k)| + 1
  {
    var t' := t[sl := id];
    forall x ensures x in SlotsOf(t', k) <==> x in SlotsOf(t, k) || (x == sl && k == id) {
      if x != sl { assert x in t' <==> x in t; }
    }
    assert sl !in SlotsOf(t, k);
    assert SlotsOf(t', k) == if k == id then SlotsOf(t, k) + {sl} else SlotsOf(t, k);
  }

  lemma EnterId(s: State, id: int, sl: Slot, k: int)
    requires s.h.Ok() && CanEnter(s, id, sl) && IdOk(s, k)
    ensures IdOk(Enter(s, id, sl), k)
  {
    SlotsWith(s.vvNew, sl, id, k);
  }

  lemma EnterWired(s: State, id: int, sl: Slot)
    requires Wired(s) && CanEnter(s, id, sl)
    ensures Wired(Enter(s, id, sl))
  {
    var s' := Enter(s, id, sl);
    forall k | k in s'.mapInfo ensures IdOk(s', k) { assert IdOk(s, k); EnterId(s, id, sl, k); }
    forall ip | ip in s'.mapAddr ensures IpOk(s', ip) { assert IpOk(s, ip); }
    forall k | 0 <= k < |s'.vRandom| ensures PosOk(s', k) { assert PosOk(s, k); }
    forall x | x in s'.vvTried ensures TriedSlotOk(s', x) { assert TriedSlotOk(s, x); }
    forall x | x in s'.vvNew ensures NewSlotOk(s', x) { if x != sl { assert NewSlotOk(s, x); } }
  }

  lemma EnterCounts(s: State, id: int, sl: Slot, limbo: set<int>, except: set<int>)
    requires s.h.Ok() && CanEnter(s, id, sl) && s.mapInfo[id].nRefCount >= 0
    requires Counted(s, limbo) && Referenced(s, except)
    ensures id !in limbo ==> Counted(Enter(s, id, sl), limbo)
    ensures id in limbo ==> Counted(Enter(s, id, sl).(nNew := s.nNew + 1), limbo - {id})
    ensures Referenced(Enter(s, id, sl), except - {id})
  {
    var s' := Enter(s, id, sl);
    assert forall k :: k in NewIds(s') <==> k in NewIds(s);
    assert forall k :: k in TriedIds(s') <==> k in TriedIds(s);
    assert NewIds(s') == NewIds(s) && TriedIds(s') == TriedIds(s);
    assert NewIds(s'.(nNew := s.nNew + 1)) == NewIds(s') && TriedIds(s'.(nNew := s.nNew + 1)) == TriedIds(s');
  }

  lemma EnterShows(s: State, id: int, sl: Slot, a: Abs)
    requires id in s.mapInfo && Shows(s, a)
    ensures Shows(Enter(s, id, sl), a.(inNew := a.inNew[sl := s.mapInfo[id].Ip()]))
  {
    var s', a' := Enter(s, id, sl), a.(inNew := a.inNew[sl := s.mapInfo[id].Ip()]);
    forall ip ensures StatsAt(s', ip) == Get(a'.infos, ip) { assert StatsAt(s, ip) == Get(a.infos, ip); }
    forall x ensures IpIn(s', s'.vvNew, x) == Get(a'.inNew, x) { assert IpIn(s, s.vvNew, x) == Get(a.inNew, x); }
    forall x ensures IpIn(s', s'.vvTried, x) == Get(a'.inTried, x) { assert IpIn(s, s.vvTried, x) == Get(a.inTried, x); }
  }

  // Promote: an entry outside both tables takes its tried slot.

  function Promote(s: State, id: int): State
    requires s.h.Ok() && id in s.mapInfo
  {
    s.(vvTried := s.vvTried[s.h.TriedSlot(s.mapInfo[id].stats.service) := id],
       mapInfo := s.mapInfo[id := s.mapInfo[id].(fInTried := true)], nTried := s.nTried + 1)
  }

  ghost predicate CanPromote(s: State, id: int)
    requires s.h.Ok()
  {
    && id in s.mapInfo && !s.mapInfo[id].fInTried && s.mapInfo[id].nRefCount == 0
    && s.h.TriedSlot(s.mapInfo[id].stats.service) !in s.vvTried
  }

  lemma PromoteId(s: State, id: int, k: int)
    requires s.h.Ok() && CanPromote(s, id) && IdOk(s, k)
    ensures IdOk(Promote(s, id), k)
  {
  }

  lemma PromoteWired(s: State, id: int)
    requires Wired(s) && CanPromote(s, id)
    ensures Wired(Promote(s, id))
  {
    var s' := Promote(s, id);
    assert IdOk(s, id);
    forall k | k in s'.mapInfo ensures IdOk(s', k) { assert IdOk(s, k); PromoteId(s, id, k); }
    forall ip | ip in s'.mapAddr ensures IpOk(s', ip) { assert IpOk(s, ip); }
    forall k | 0 <= k < |s'.vRandom| ensures PosOk(s', k) { assert PosOk(s, k); }
    forall x | x in s'.vvTried ensures TriedSlotOk(s', x) { if x in s.vvTried { assert TriedSlotOk(s, x); } }
    forall x | x in s'.vvNew ensures NewSlotOk(s', x) { assert NewSlotOk(s, x); NoSlots(s, id, x); }
  }

  lemma PromoteCounts(s: State, id: int, limbo: set<int>)
    requires s.h.Ok() && CanPromote(s, id) && id in limbo && Counted(s, limbo) && Referenced(s, limbo)
    ensures Counted(Promote(s, id), limbo - {id}) && Referenced(Promote(s, id), limbo - {id})
  {
    var s' := Promote(s, id);
    assert id !in TriedIds(s);
    forall k ensures k in NewIds(s') <==> k in NewIds(s) && k != id {}
    forall k ensures k in TriedIds(s') <==> k in TriedIds(s) || k == id {}
    assert NewIds(s') == NewIds(s) - {id} && TriedIds(s') == TriedIds(s) + {id};
  }

  lemma PromoteShows(s: State, id: int, a: Abs)
    requires s.h.Ok() && id in s.mapInfo && Shows(s, a)
    ensures Shows(Promote(s, id), a.(inTried := a.inTried[s.h.TriedSlot(s.mapInfo[id].stats.service) := s.mapInfo[id].Ip()]))
  {
    var s' := Promote(s, id);
    var a' := a.(inTried := a.inTried[s.h.TriedSlot(s.mapInfo[id].stats.service) := s.mapInfo[id].Ip()]);
    forall ip ensures StatsAt(s', ip) == Get(a'.infos, ip) { assert StatsAt(s, ip) == Get(a.infos, ip); }
    forall x ensures IpIn(s', s'.vvNew, x) == Get(a'.inNew, x) { assert IpIn(s, s.vvNew, x) == Get(a.inNew, x); }
    forall x ensures IpIn(s', s'.vvTried, x) == Get(a'.inTried, x) { assert IpIn(s, s.vvTried, x) == Get(a.inTried, x); }
  }

  // Displace: the occupant of a tried slot goes back to its new slot, clearing whatever is there.

  lemma ClearFrame(s: State, sl: Slot, k: int)
    requires ClearPre(s, sl) && k in s.mapInfo && (sl in s.vvNew ==> s.vvNew[sl] != k)
    ensures
      var s' := ClearNew(s, sl);
      && k in s'.mapInfo && s'.mapInfo[k].(nRandomPos := 0) == s.mapInfo[k].(nRandomPos := 0)
      && s'.h == s.h && s'.vvTried == s.vvTried
  {
  }

  ghost function HomeSlot(s: State, id: int): Slot
    requires s.h.Ok() && id in s.mapInfo
  {
    s.h.NewSlot(s.mapInfo[id].stats.service, s.mapInfo[id].stats.source)
  }

  ghost predicate DisplacePre(s: State, sl: Slot) {
    && s.h.Ok() && TriedSlotOk(s, sl)
    && ClearPre(Evict(s, sl), HomeSlot(s, s.vvTried[sl]))
    && s.vvTried[sl] in ClearNew(Evict(s, sl), HomeSlot(s, s.vvTried[sl])).mapInfo
  }

  ghost function Displace(s: State, sl: Slot): State
    requires DisplacePre(s, sl)
  {
    var id, home := s.vvTried[sl], HomeSlot(s, s.vvTried[sl]);
    var s2 := ClearNew(Evict(s, sl), home);
    Enter(s2, id, home).(nNew := s2.nNew + 1)
  }

  ghost function AbsDisplace(h: Hashing, a: Abs, sl: Slot): Abs
    requires h.Ok()
  {
    if sl !in a.inTried || a.inTried[sl] !in a.infos then a
    else
      var ip := a.inTried[sl];
      var home := h.NewSlot(a.infos[ip].service, a.infos[ip].source);
      var a1 := AbsClear(a.(inTried := a.inTried - {sl}), home);
      a1.(inNew := a1.inNew[home := ip])
  }

  lemma DisplaceAbs(s: State, sl: Slot, a: Abs)
    requires Wired(s) && TriedSlotOk(s, sl) && Shows(s, a)
    ensures
      var id := s.vvTried[sl];
      && sl in a.inTried && a.inTried[sl] == s.mapInfo[id].Ip()
      && a.inTried[sl] in a.infos && a.infos[a.inTried[sl]] == s.mapInfo[id].stats
  {
    assert IpIn(s, s.vvTried, sl) == Get(a.inTried, sl);
    assert IdOk(s, s.vvTried[sl]);
    assert StatsAt(s, s.mapInfo[s.vvTried[sl]].Ip()) == Get(a.infos, s.mapInfo[s.vvTried[sl]].Ip());
  }

  lemma DisplaceClear(s: State, sl: Slot, limbo: set<int>, a: Abs)
    requires Linked(s, limbo, limbo) && TriedSlotOk(s, sl) && Shows(s, a)
    ensures
      var id, home, s1 := s.vvTried[sl], HomeSlot(s, s.vvTried[sl]), Evict(s, sl);
      && ClearPre(s1, home) && id !in limbo
      && var s2 := ClearNew(s1, home);
      && Linked(s2, limbo + {id}, limbo + {id}) && Shows(s2, AbsClear(a.(inTried := a.inTried - {sl}), home))
      && CanEnter(s2, id, home) && s2.mapInfo[id].nRefCount == 0 && s2.mapInfo[id].stats == s.mapInfo[id].stats
      && s2.h == s.h && s2.vvTried == s.vvTried - {sl}
      && forall k | k in limbo :: k in s2.mapInfo && s2.mapInfo[k].stats == s.mapInfo[k].stats
  {
    var id, home, s1 := s.vvTried[sl], HomeSlot(s, s.vvTried[sl]), Evict(s, sl);
    assert IdOk(s, id);
    EvictWired(s, sl);
    EvictCounts(s, sl, limbo);
    EvictShows(s, sl, a);
    ClearKeeps(s1, home, limbo + {id}, limbo + {id}, a.(inTried := a.inTried - {sl}));
    forall k | k in limbo + {id} ensures
      var s2 := ClearNew(s1, home);
      && k in s2.mapInfo && s2.mapInfo[k].(nRandomPos := 0) == s1.mapInfo[k].(nRandomPos := 0)
      && s2.h == s1.h && s2.vvTried == s1.vvTried
    {
      assert IdOk(s1, k);
      NoSlots(s1, k, home);
      ClearFrame(s1, home, k);
    }
    assert id in limbo + {id};
  }

  lemma DisplaceKeeps(s: State, sl: Slot, limbo: set<int>, a: Abs)
    requires Linked(s, limbo, limbo) && TriedSlotOk(s, sl) && Shows(s, a)
    ensures DisplacePre(s, sl)
    ensures Linked(Displace(s, sl), limbo, limbo) && Shows(Displace(s, sl), AbsDisplace(s.h, a, sl))
    ensures Displace(s, sl).h == s.h && Displace(s, sl).vvTried == s.vvTried - {sl}
    ensures forall k | k in limbo :: k in Displace(s, sl).mapInfo && Displace(s, sl).mapInfo[k].stats == s.mapInfo[k].stats
  {
    var id, home, s1 := s.vvTried[sl], HomeSlot(s, s.vvTried[sl]), Evict(s, sl);
    DisplaceClear(s, sl, limbo, a);
    var s2, a2 := ClearNew(s1, home), AbsClear(a.(inTried := a.inTried - {sl}), home);
    EnterWired(s2, id, home);
    EnterCounts(s2, id, home, limbo + {id}, limbo + {id});
    EnterShows(s2, id, home, a2);
    DisplaceAbs(s, sl, a);
    assert limbo + {id} - {id} == limbo;
    CountOnly(Enter(s2, id, home), s2.nNew + 1, AbsDisplace(s.h, a, sl));
  }

  lemma CountOnly(s: State, n: int, a: Abs)
    ensures Wired(s) ==> Wired(s.(nNew := n))
    ensures Shows(s, a) ==> Shows(s.(nNew := n), a)
  {
    var s' := s.(nNew := n);
    if Wired(s) {
      forall k | k in s'.mapInfo ensures IdOk(s', k) { assert IdOk(s, k); }
      forall ip | ip in s'.mapAddr ensures IpOk(s', ip) { assert IpOk(s, ip); }
      forall k | 0 <= k < |s'.vRandom| ensures PosOk(s', k) { assert PosOk(s, k); }
      forall x | x in s'.vvTried ensures TriedSlotOk(s', x) { assert TriedSlotOk(s, x); }
      forall x | x in s'.vvNew ensures NewSlotOk(s', x) { assert NewSlotOk(s, x); }
    }
    if Shows(s, a) {
      forall ip ensures StatsAt(s', ip) == Get(a.infos, ip) { assert StatsAt(s, ip) == Get(a.infos, ip); }
      forall x ensures IpIn(s', s'.vvNew, x) == Get(a.inNew, x) { assert IpIn(s, s.vvNew, x) == Get(a.inNew, x); }
      forall x ensures IpIn(s', s'.vvTried, x) == Get(a.inTried, x) { assert IpIn(s, s.vvTried, x) == Get(a.inTried, x); }
    }
  }

  // The whole of MakeTried.

  ghost function AbsMakeTried(h: Hashing, a: Abs, addr: Service): Abs
    requires h.Ok()
  {
    var a1 := AbsDisplace(h, AbsStrip(a, addr.ip), h.TriedSlot(addr));
    a1.(inTried := a1.inTried[h.TriedSlot(addr) := addr.ip])
  }

  ghost function SlotFreed(s: State, sl: Slot): State
    requires sl in s.vvTried ==> DisplacePre(s, sl)
  {
    if sl in s.vvTried then Displace(s, sl) else s
  }

  lemma StripKeeps(s: State, id: int, a: Abs)
    requires Inv(s) && Shows(s, a) && id in s.mapInfo && !s.mapInfo[id].fInTried
    ensures Linked(Strip(s, id), {id}, {id}) && Shows(Strip(s, id), AbsStrip(a, s.mapInfo[id].Ip()))
  {
    assert IdOk(s, id);
    StripWired(s, id);
    StripCounts(s, id);
    StripShows(s, id, a);
  }

  lemma FreeKeeps(s: State, id: int, a: Abs)
    requires Linked(s, {id}, {id}) && Shows(s, a)
    ensures id in s.mapInfo
    ensures
      var sl := s.h.TriedSlot(s.mapInfo[id].stats.service);
      && (sl in s.vvTried ==> DisplacePre(s, sl))
      && var s' := SlotFreed(s, sl);
      && Linked(s', {id}, {id}) && Shows(s', AbsDisplace(s.h, a, sl)) && CanPromote(s', id)
      && s'.h == s.h && s'.mapInfo[id].stats == s.mapInfo[id].stats
  {
    assert id in NewIds(s);
    var sl := s.h.TriedSlot(s.mapInfo[id].stats.service);
    assert IpIn(s, s.vvTried, sl) == Get(a.inTried, sl);
    if sl in s.vvTried {
      assert TriedSlotOk(s, sl);
      DisplaceKeeps(s, sl, {id}, a);
      assert id in NewIds(Displace(s, sl));
    }
  }

  lemma PromoteKeeps(s: State, id: int, a: Abs)
    requires Linked(s, {id}, {id}) && Shows(s, a) && CanPromote(s, id)
    ensures Inv(Promote(s, id))
    ensures Shows(Promote(s, id), a.(inTried := a.inTried[s.h.TriedSlot(s.mapInfo[id].stats.service) := s.mapInfo[id].Ip()]))
  {
    PromoteWired(s, id);
    PromoteCounts(s, id, {id});
    PromoteShows(s, id, a);
    assert {id} - {id} == {};
  }

  ghost predicate MakeTriedPre(s: State, id: int) {
    && s.h.Ok() && id in s.mapInfo
    && var sl := s.h.TriedSlot(s.mapInfo[id].stats.service);
    && (sl in s.vvTried ==> DisplacePre(Strip(s, id), sl))
    && id in SlotFreed(Strip(s, id), sl).mapInfo
  }

  ghost function MakeTried(s: State, id: int): State
    requires MakeTriedPre(s, id)
  {
    var s1 := SlotFreed(Strip(s, id), s.h.TriedSlot(s.mapInfo[id].stats.service));
    if s1.h.Ok() then Promote(s1, id) else s1
  }

  /** Moving an entry to the tried table keeps everything consistent and does what its id-free description says. */
  lemma MakeTriedKeeps(s: State, id: int, a: Abs)
    requires Inv(s) && Shows(s, a) && id in s.mapInfo && !s.mapInfo[id].fInTried
    ensures MakeTriedPre(s, id) && Inv(MakeTried(s, id))
    ensures Shows(MakeTried(s, id), AbsMakeTried(s.h, a, s.mapInfo[id].stats.service))
  {
    var sl := s.h.TriedSlot(s.mapInfo[id].stats.service);
    var a1 := AbsStrip(a, s.mapInfo[id].Ip());
    StripKeeps(s, id, a);
    FreeKeeps(Strip(s, id), id, a1);
    PromoteKeeps(SlotFreed(Strip(s, id), sl), id, AbsDisplace(s.h, a1, sl));
  }

  // Restat: an entry's statistics change; its address and source do not.

  function Restat(s: State, id: int, st: Stats): State
    requires id in s.mapInfo
  {
    s.(mapInfo := s.mapInfo[id := s.mapInfo[id].(stats := st)])
  }

  lemma RestatId(s: State, id: int, st: Stats, k: int)
    requires s.h.Ok() && id in s.mapInfo && st.service == s.mapInfo[id].stats.service && IdOk(s, k)
    ensures IdOk(Restat(s, id, st), k)
  {
  }

  lemma RestatKeeps(s: State, id: int, st: Stats, limbo: set<int>, except: set<int>)
    requires Linked(s, limbo, except) && id in s.mapInfo && st.service == s.mapInfo[id].stats.service
    ensures Linked(Restat(s, id, st), limbo, except)
  {
    var s' := Restat(s, id, st);
    forall k | k in s'.mapInfo ensures IdOk(s', k) { assert IdOk(s, k); RestatId(s, id, st, k); }
    forall ip | ip in s'.mapAddr ensures IpOk(s', ip) { assert IpOk(s, ip); }
    forall k | 0 <= k < |s'.vRandom| ensures PosOk(s', k) { assert PosOk(s, k); }
    forall x | x in s'.vvTried ensures TriedSlotOk(s', x) { assert TriedSlotOk(s, x); }
    forall x | x in s'.vvNew ensures NewSlotOk(s', x) { assert NewSlotOk(s, x); }
    forall k ensures k in NewIds(s') <==> k in NewIds(s) {}
    forall k ensures k in TriedIds(s') <==> k in TriedIds(s) {}
    assert NewIds(s') == NewIds(s) && TriedIds(s') == TriedIds(s);
  }

  lemma RestatShows(s: State, id: int, st: Stats, a: Abs)
    requires Wired(s) && id in s.mapInfo && st.service == s.mapInfo[id].stats.service && Shows(s, a)
    ensures Shows(Restat(s, id, st), a.(infos := a.infos[st.service.ip := st]))
  {
    var s', a' := Restat(s, id, st), a.(infos := a.infos[st.service.ip := st]);
    assert IdOk(s, id);
    forall ip ensures StatsAt(s', ip) == Get(a'.infos, ip) {
      assert StatsAt(s, ip) == Get(a.infos, ip);
      if ip in s.mapAddr { assert IpOk(s, ip); }
    }
    forall x ensures IpIn(s', s'.vvNew, x) == Get(a'.inNew, x) { assert IpIn(s, s.vvNew, x) == Get(a.inNew, x); }
    forall x ensures IpIn(s', s'.vvTried, x) == Get(a'.inTried, x) { assert IpIn(s, s.vvTried, x) == Get(a.inTried, x); }
  }

  // Reading the id-free view.

  ghost function AbsSlots(a: Abs, ip: Ip): set<Slot> {
    set sl | sl in a.inNew && a.inNew[sl] == ip
  }

  ghost predicate AbsInTried(h: Hashing, a: Abs, ip: Ip)
    requires h.Ok()
  {
    ip in a.infos && Get(a.inTried, h.TriedSlot(a.infos[ip].service)) == Some(ip)
  }

  lemma ReadEntry(s: State, id: int, a: Abs)
    requires Wired(s) && Shows(s, a) && id in s.mapInfo
    ensures
      var e := s.mapInfo[id];
      && Get(a.infos, e.Ip()) == Some(e.stats)
      && (e.fInTried <==> AbsInTried(s.h, a, e.Ip()))
      && (!e.fInTried ==> e.nRefCount == |AbsSlots(a, e.Ip())|)
  {
    var e := s.mapInfo[id];
    var sl := s.h.TriedSlot(e.stats.service);
    assert IdOk(s, id);
    assert StatsAt(s, e.Ip()) == Get(a.infos, e.Ip());
    assert IpIn(s, s.vvTried, sl) == Get(a.inTried, sl);
    if sl in s.vvTried && s.vvTried[sl] in s.mapInfo {
      assert TriedSlotOk(s, sl);
      assert IdOk(s, s.vvTried[sl]);
    }
    forall x ensures x in AbsSlots(a, e.Ip()) <==> x in SlotsOf(s.vvNew, id) {
      assert IpIn(s, s.vvNew, x) == Get(a.inNew, x);
      if x in s.vvNew {
        assert NewSlotOk(s, x);
        assert IdOk(s, s.vvNew[x]);
      }
    }
    assert AbsSlots(a, e.Ip()) == SlotsOf(s.vvNew, id);
  }
}
