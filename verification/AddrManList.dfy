/** What `GetAddr_` hands out (src/addrman.cpp:462-481), and the exact size of the address manager. */
module AddrManList {
  import opened Options
  import opened AddrManModel
  import opened AddrManMoves
  import opened AddrManSpec

  function AddressOf(st: Stats): Address { Address(st.service, st.nServices, st.nTime) }

  /** How many addresses may be handed out. */
  function ListLimit(size: nat): nat {
    var nNodes := 23 * size / 100;
    if nNodes > 2500 then 2500 else nNodes
  }

  /** Of good quality at one of the first `n` readings of the clock, and at all of them. */
  ghost predicate SometimesGood(st: Stats, clock: nat -> int, n: nat) {
    exists i: nat | i < n :: !st.IsTerrible(clock(i))
  }

  ghost predicate AlwaysGood(st: Stats, clock: nat -> int, n: nat) {
    forall i: nat | i < n :: !st.IsTerrible(clock(i))
  }

  /** The addresses of good quality among the first `n` of the random order, each at its own reading of the clock. */
  ghost function Picked(s: State, n: nat, clock: nat -> int): seq<Address>
    requires n <= |s.vRandom| && forall i | 0 <= i < n :: s.vRandom[i] in s.mapInfo
  {
    if n == 0 then []
    else
      var st := s.mapInfo[s.vRandom[n - 1]].stats;
      Picked(s, n - 1, clock) + if st.IsTerrible(clock(n - 1)) then [] else [AddressOf(st)]
  }

  lemma AllHeld(s: State)
    requires Wired(s)
    ensures forall i | 0 <= i < |s.vRandom| :: s.vRandom[i] in s.mapInfo
  {
    forall i | 0 <= i < |s.vRandom| ensures s.vRandom[i] in s.mapInfo { assert PosOk(s, i); }
  }

  /** A swap beyond the first `n` leaves what was picked so far. */
  lemma {:induction false} SwapPicked(s: State, i: int, j: int, n: nat, clock: nat -> int)
    requires PosOk(s, i) && PosOk(s, j) && n <= i && n <= j
    requires n <= |s.vRandom| && forall k | 0 <= k < n :: s.vRandom[k] in s.mapInfo
    ensures forall k | 0 <= k < n :: Swap(s, i, j).vRandom[k] in Swap(s, i, j).mapInfo
    ensures Picked(Swap(s, i, j), n, clock) == Picked(s, n, clock)
  {
    if n > 0 {
      SwapPicked(s, i, j, n - 1, clock);
    }
  }

  /** Only known addresses of good quality are picked, and none twice. */
  lemma {:induction false} PickedSound(s: State, n: nat, clock: nat -> int, a: Abs)
    requires Wired(s) && Shows(s, a) && n <= |s.vRandom| && forall i | 0 <= i < n :: s.vRandom[i] in s.mapInfo
    ensures forall x | x in Picked(s, n, clock) :: PickedFrom(s, n, x)
    ensures forall x | x in Picked(s, n, clock) :: x.service.ip in a.infos && x == AddressOf(a.infos[x.service.ip])
    ensures forall x | x in Picked(s, n, clock) :: SometimesGood(a.infos[x.service.ip], clock, n)
    ensures forall i, j | 0 <= i < j < |Picked(s, n, clock)| :: Picked(s, n, clock)[i].service.ip != Picked(s, n, clock)[j].service.ip
  {
    if n > 0 {
      PickedSound(s, n - 1, clock, a);
      var id := s.vRandom[n - 1];
      assert PosOk(s, n - 1);
      assert IdOk(s, id);
      ReadEntry(s, id, a);
      forall x | x in Picked(s, n - 1, clock) ensures x.service.ip != s.mapInfo[id].Ip() && PickedFrom(s, n, x) {
        assert PickedFrom(s, n - 1, x);
        var i :| 0 <= i < n - 1 && s.vRandom[i] in s.mapInfo && s.mapInfo[s.vRandom[i]].Ip() == x.service.ip;
        assert IdOk(s, s.vRandom[i]);
        assert PosOk(s, i);
      }
      assert PickedFrom(s, n, AddressOf(s.mapInfo[id].stats));
    }
  }

  ghost predicate PickedFrom(s: State, n: nat, x: Address) {
    exists i :: 0 <= i < n && i < |s.vRandom| && s.vRandom[i] in s.mapInfo && s.mapInfo[s.vRandom[i]].Ip() == x.service.ip
  }

  lemma {:induction false} PickedHas(s: State, n: nat, clock: nat -> int, i: nat)
    requires n <= |s.vRandom| && i < n && forall k | 0 <= k < n :: s.vRandom[k] in s.mapInfo
    requires !s.mapInfo[s.vRandom[i]].stats.IsTerrible(clock(i))
    ensures AddressOf(s.mapInfo[s.vRandom[i]].stats) in Picked(s, n, clock)
  {
    if i < n - 1 {
      PickedHas(s, n - 1, clock, i);
    }
  }

  /** Walking the whole order misses nothing. */
  lemma PickedComplete(s: State, clock: nat -> int, a: Abs, ip: Ip)
    requires Wired(s) && Shows(s, a) && (forall i | 0 <= i < |s.vRandom| :: s.vRandom[i] in s.mapInfo)
    requires ip in a.infos && AlwaysGood(a.infos[ip], clock, |s.vRandom|)
    ensures AddressOf(a.infos[ip]) in Picked(s, |s.vRandom|, clock)
  {
    assert StatsAt(s, ip) == Get(a.infos, ip);
    var id := s.mapAddr[ip];
    assert IdOk(s, id);
    PickedHas(s, |s.vRandom|, clock, s.mapInfo[id].nRandomPos);
  }

  /**
   * A sample of the known addresses: of good quality, none twice, at most `limit`, and fewer than
   * that only if there are no more.
   */
  ghost predicate GoodSample(infos: map<Ip, Stats>, vAddr: seq<Address>, limit: nat, clock: nat -> int, size: nat) {
    && |vAddr| <= limit
    && (forall x | x in vAddr :: x.service.ip in infos && x == AddressOf(infos[x.service.ip]) && SometimesGood(infos[x.service.ip], clock, size))
    && (forall i, j | 0 <= i < j < |vAddr| :: vAddr[i].service.ip != vAddr[j].service.ip)
    && (|vAddr| < limit ==> forall ip | ip in infos && AlwaysGood(infos[ip], clock, size) :: AddressOf(infos[ip]) in vAddr)
  }

  /** `n` positions of the order have been drawn and `vAddr` collected from them. */
  ghost predicate Sampling(s: State, a: Abs, n: nat, vAddr: seq<Address>, clock: nat -> int) {
    && Inv(s) && Shows(s, a) && n <= |s.vRandom|
    && (forall i | 0 <= i < |s.vRandom| :: s.vRandom[i] in s.mapInfo)
    && vAddr == Picked(s, n, clock)
  }

  lemma SamplingStarts(s: State, a: Abs, clock: nat -> int)
    requires Inv(s) && Shows(s, a)
    ensures Sampling(s, a, 0, [], clock)
  {
    AllHeld(s);
  }

  lemma SamplingEnds(s: State, a: Abs, n: nat, vAddr: seq<Address>, limit: nat, clock: nat -> int)
    requires Sampling(s, a, n, vAddr, clock) && |vAddr| <= limit && (n == |s.vRandom| || |vAddr| == limit)
    ensures GoodSample(a.infos, vAddr, limit, clock, |s.vRandom|) && Inv(s) && Abstract(s) == a
  {
    PickedSound(s, n, clock, a);
    if n == |s.vRandom| {
      forall ip | ip in a.infos && AlwaysGood(a.infos[ip], clock, n) ensures AddressOf(a.infos[ip]) in vAddr {
        PickedComplete(s, clock, a, ip);
      }
    }
    ShowsIsUnique(s, a);
  }

  lemma SamplingStep(s: State, a: Abs, n: nat, vAddr: seq<Address>, j: int, clock: nat -> int)
    requires Sampling(s, a, n, vAddr, clock) && n < |s.vRandom| && n <= j < |s.vRandom|
    ensures PosOk(s, n) && PosOk(s, j)
    ensures
      var s' := Swap(s, n, j);
      && |s'.vRandom| == |s.vRandom| && s'.vRandom[n] in s'.mapInfo
      && var st := s'.mapInfo[s'.vRandom[n]].stats;
      Sampling(s', a, n + 1, if st.IsTerrible(clock(n)) then vAddr else vAddr + [AddressOf(st)], clock)
  {
    assert PosOk(s, n) && PosOk(s, j);
    SwapKeeps(s, n, j, {}, {});
    SwapShows(s, n, j, a);
    SwapPicked(s, n, j, n, clock);
    AllHeld(Swap(s, n, j));
  }

  // ----- Check_ code -7: the random order lists every entry once -----

  function Elements(xs: seq<int>): set<int> { set x | x in xs }

  lemma {:induction false} DistinctCount(xs: seq<int>)
    requires forall i, j | 0 <= i < j < |xs| :: xs[i] != xs[j]
    ensures |Elements(xs)| == |xs|
  {
    if xs != [] {
      var init, last := xs[..|xs| - 1], xs[|xs| - 1];
      DistinctCount(init);
      assert last !in init;
      forall x ensures x in Elements(xs) <==> x in Elements(init) || x == last {
        if x in xs { var i :| 0 <= i < |xs| && xs[i] == x; }
      }
      assert Elements(xs) == Elements(init) + {last};
    }
  }

  lemma SizeIsExact(s: State)
    requires Inv(s)
    ensures |s.vRandom| == s.nTried + s.nNew
  {
    forall i, j | 0 <= i < j < |s.vRandom| ensures s.vRandom[i] != s.vRandom[j] {
      assert PosOk(s, i);
      assert PosOk(s, j);
    }
    DistinctCount(s.vRandom);
    forall id ensures id in Elements(s.vRandom) <==> id in NewIds(s) + TriedIds(s) {
      if id in s.mapInfo { assert IdOk(s, id); }
      if id in s.vRandom {
        var i :| 0 <= i < |s.vRandom| && s.vRandom[i] == id;
        assert PosOk(s, i);
      }
    }
    assert Elements(s.vRandom) == NewIds(s) + TriedIds(s);
    assert NewIds(s) !! TriedIds(s);
  }

  // ----- the times of Check_, seen without ids -----

  ghost predicate AbsTimesOk(a: Abs) {
    && (forall ip | ip in a.infos :: a.infos[ip].nLastTry >= 0 && a.infos[ip].nLastSuccess >= 0)
    && (forall sl | sl in a.inTried :: a.inTried[sl] in a.infos ==> a.infos[a.inTried[sl]].nLastSuccess != 0)
  }

  lemma TimesAbstract(s: State, a: Abs)
    requires Wired(s) && Shows(s, a)
    ensures TimesOk(s) <==> AbsTimesOk(a)
  {
    if TimesOk(s) {
      forall ip | ip in a.infos ensures a.infos[ip].nLastTry >= 0 && a.infos[ip].nLastSuccess >= 0 {
        assert StatsAt(s, ip) == Get(a.infos, ip);
        var id := s.mapAddr[ip];
        assert id in s.mapInfo && s.mapInfo[id].stats == a.infos[ip];
      }
      forall sl | sl in a.inTried && a.inTried[sl] in a.infos ensures a.infos[a.inTried[sl]].nLastSuccess != 0 {
        assert IpIn(s, s.vvTried, sl) == Get(a.inTried, sl);
        var id := s.vvTried[sl];
        assert TriedSlotOk(s, sl);
        ReadEntry(s, id, a);
      }
    }
    if AbsTimesOk(a) {
      forall id | id in s.mapInfo
        ensures s.mapInfo[id].stats.nLastTry >= 0 && s.mapInfo[id].stats.nLastSuccess >= 0
        ensures s.mapInfo[id].fInTried ==> s.mapInfo[id].stats.nLastSuccess != 0
      {
        ReadEntry(s, id, a);
      }
    }
  }

  /** Clearing a slot forgets at most the address that was in it. */
  lemma ClearTimes(a: Abs, sl: Slot)
    ensures AbsClear(a, sl).inTried == a.inTried && AbsClear(a, sl).infos.Keys <= a.infos.Keys
    ensures forall ip | ip in AbsClear(a, sl).infos :: AbsClear(a, sl).infos[ip] == a.infos[ip]
    ensures forall ip | ip in a.infos && (sl in a.inNew ==> a.inNew[sl] != ip) :: ip in AbsClear(a, sl).infos
  {
  }

  lemma MakeTriedInfos(h: Hashing, a: Abs, addr: Service)
    requires h.Ok()
    ensures
      var r := AbsMakeTried(h, a, addr);
      && (forall ip | ip in r.infos :: ip in a.infos && r.infos[ip] == a.infos[ip])
      && (addr.ip in a.infos ==> addr.ip in r.infos)
      && Get(r.inTried, h.TriedSlot(addr)) == Some(addr.ip)
      && forall sl | sl in r.inTried && sl != h.TriedSlot(addr) :: sl in a.inTried && r.inTried[sl] == a.inTried[sl]
  {
    var a1, sl := AbsStrip(a, addr.ip), h.TriedSlot(addr);
    if sl in a1.inTried && a1.inTried[sl] in a1.infos {
      var ip := a1.inTried[sl];
      ClearTimes(a1.(inTried := a1.inTried - {sl}), h.NewSlot(a1.infos[ip].service, a1.infos[ip].source));
    }
  }

  /** `Good_` keeps the time part of `Check_` exactly when its clock is positive or it has nothing to update. */
  lemma GoodTimes(h: Hashing, a: Abs, addr: Service, nTime: int)
    requires h.Ok() && AbsTimesOk(a)
    ensures AbsTimesOk(AbsGood(h, a, addr, nTime)) <==> nTime > 0 || !Known(a, addr)
  {
    var r := AbsGood(h, a, addr, nTime);
    if Known(a, addr) {
      var a1 := WithStats(a.(nLastGood := nTime), GoodStats(a.infos[addr.ip], nTime));
      MakeTriedInfos(h, a1, addr);
      assert r.infos[addr.ip].nLastSuccess == nTime;
      assert h.TriedSlot(addr) in r.inTried && r.inTried[h.TriedSlot(addr)] == addr.ip;
      if nTime > 0 {
        forall ip | ip in r.infos ensures r.infos[ip].nLastTry >= 0 && r.infos[ip].nLastSuccess >= 0 {
          assert ip in a.infos;
        }
        forall sl | sl in r.inTried && r.inTried[sl] in r.infos ensures r.infos[r.inTried[sl]].nLastSuccess != 0 {
          assert r.inTried[sl] != addr.ip ==> sl in a.inTried && r.inTried[sl] in a.infos && r.inTried[sl] == a.inTried[sl];
        }
      }
    }
  }

  lemma AttemptTimes(a: Abs, addr: Service, fCountFailure: bool, nTime: int)
    requires AbsTimesOk(a)
    ensures AbsTimesOk(AbsAttempt(a, addr, fCountFailure, nTime)) <==> nTime >= 0 || !Known(a, addr)
  {
    var r := AbsAttempt(a, addr, fCountFailure, nTime);
    if Known(a, addr) {
      assert r.infos[addr.ip].nLastTry == nTime;
    }
  }

  /** A known service that was never reached, marked good at time 0 and attempted at time -1. */
  lemma ClockAtZero(h: Hashing, addr: Service, a: Abs)
    requires h.Ok() && a == Abs(map[addr.ip := Stats(addr, {}, 1, 2, 0, 0, 0, 0)], map[h.NewSlot(addr, 2) := addr.ip], map[], 1)
    ensures AbsTimesOk(a) && !AbsTimesOk(AbsGood(h, a, addr, 0)) && !AbsTimesOk(AbsAttempt(a, addr, true, -1))
  {
    GoodTimes(h, a, addr, 0);
    AttemptTimes(a, addr, true, -1);
  }

  lemma AddTimes(h: Hashing, a: Abs, addr: Address, fRoutable: bool, source: Ip, nTimePenalty: int, nNow: int, nLater: int, rnd: nat)
    requires h.Ok() && AbsTimesOk(a) && forall sl | sl in a.inTried :: a.inTried[sl] in a.infos
    ensures AbsTimesOk(AbsAdd(h, a, addr, fRoutable, source, nTimePenalty, nNow, nLater, rnd))
  {
    var ip := addr.service.ip;
    var penalty := if ip == source then 0 else nTimePenalty;
    var a1 := if ip in a.infos then a.(infos := a.infos[ip := HeardStats(a.infos[ip], addr, penalty, nNow)])
              else WithStats(a, FirstStats(addr, source, penalty));
    assert AbsTimesOk(a1);
    ClearTimes(a1, h.NewSlot(a1.infos[ip].service, source));
  }
}
