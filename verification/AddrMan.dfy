/** The class `CAddrMan` (src/addrman.cpp). Clocks and random numbers are parameters. */
module AddrMan {
  import opened Options
  import opened Powers
  import opened Arith
  import opened AddrManModel
  import opened AddrManMoves
  import opened AddrManSpec
  import opened AddrManAdd
  import opened AddrManList

  ghost function TableOf(t: array2<int>): (m: Table)
    reads t
  {
    map b, i | 0 <= b < t.Length0 && 0 <= i < t.Length1 && t[b, i] != -1 :: Slot(b, i) := t[b, i]
  }

  lemma TableAt(t: array2<int>, b: nat, i: nat)
    requires b < t.Length0 && i < t.Length1
    ensures Get(TableOf(t), Slot(b, i)) == if t[b, i] == -1 then None else Some(t[b, i])
  {
  }

  method Store(t: array2<int>, b: nat, i: nat, id: int)
    requires b < t.Length0 && i < t.Length1
    modifies t
    ensures TableOf(t) == if id == -1 then old(TableOf(t)) - {Slot(b, i)} else old(TableOf(t))[Slot(b, i) := id]
    ensures t[b, i] == id
    ensures forall x, y | 0 <= x < t.Length0 && 0 <= y < t.Length1 && !(x == b && y == i) :: t[x, y] == old(t[x, y])
  {
    t[b, i] := id;
    var m, n := TableOf(t), if id == -1 then old(TableOf(t)) - {Slot(b, i)} else old(TableOf(t))[Slot(b, i) := id];
    forall sl ensures Get(m, sl) == Get(n, sl) {
    }
    SameLookup(m, n);
  }

  method UpdatedStats(st0: Stats, addr: Address, penalty: int, nNow: int) returns (st: Stats)
    ensures st == HeardStats(st0, addr, penalty, nNow)
  {
    st := st0;
    var fCurrentlyOnline := nNow - addr.nTime < 24 * 60 * 60;
    var nUpdateInterval := if fCurrentlyOnline then 60 * 60 else 24 * 60 * 60;
    if addr.nTime != 0 && (st.nTime == 0 || st.nTime < addr.nTime - nUpdateInterval - penalty) {
      st := st.(nTime := U32(Max(0, addr.nTime - penalty)));
    }
    st := st.(nServices := st.nServices + addr.nServices);
  }

  class AddrMan {
    const h: Hashing
    var nIdCount: int
    var mapInfo: map<int, Info>
    var mapAddr: map<Ip, int>
    var vRandom: seq<int>
    var nTried: int
    const vvTried: array2<int>
    var nNew: int
    const vvNew: array2<int>
    var nLastGood: int

    ghost predicate Shape() {
      && h.Ok() && vvTried != vvNew
      && vvTried.Length0 == h.nTriedBuckets && vvTried.Length1 == h.nBucketSize
      && vvNew.Length0 == h.nNewBuckets && vvNew.Length1 == h.nBucketSize
    }

    ghost function Model(): State
      reads this, vvTried, vvNew
    {
      State(h, nIdCount, mapInfo, mapAddr, vRandom, nTried, TableOf(vvTried), nNew, TableOf(vvNew), nLastGood)
    }

    constructor (h: Hashing)
      requires h.Ok()
      ensures Shape() && this.h == h && fresh(vvNew) && fresh(vvTried)
      ensures Model() == State(h, 0, map[], map[], [], 0, map[], 0, map[], 1) && Inv(Model())
      ensures Abstract(Model()) == Abs(map[], map[], map[], 1)
    {
      this.h := h;
      nIdCount, mapInfo, mapAddr, vRandom, nTried, nNew, nLastGood := 0, map[], map[], [], 0, 0, 1;
      vvTried := new int[h.nTriedBuckets, h.nBucketSize]((b, i) => -1);
      vvNew := new int[h.nNewBuckets, h.nBucketSize]((b, i) => -1);
      new;
      assert TriedIds(Model()) == {} && NewIds(Model()) == {};
    }

    method Create(stats: Stats) returns (id: int)
      modifies this
      ensures Model() == AddrManModel.Create(old(Model()), stats) && id == old(nIdCount)
    {
      id := nIdCount;
      nIdCount := nIdCount + 1;
      mapInfo := mapInfo[id := Info(stats, 0, false, -1)];
      mapAddr := mapAddr[stats.service.ip := id];
      mapInfo := mapInfo[id := mapInfo[id].(nRandomPos := |vRandom|)];
      vRandom := vRandom + [id];
    }

    method SwapRandom(i: nat, j: nat)
      requires PosOk(Model(), i) && PosOk(Model(), j)
      modifies this
      ensures Model() == Swap(old(Model()), i, j)
    {
      if i == j {
        return;
      }
      var id1, id2 := vRandom[i], vRandom[j];
      mapInfo := mapInfo[id1 := mapInfo[id1].(nRandomPos := j)];
      mapInfo := mapInfo[id2 := mapInfo[id2].(nRandomPos := i)];
      vRandom := vRandom[i := id2];
      vRandom := vRandom[j := id1];
    }

    method Delete(id: int)
      requires id in mapInfo && PosOk(Model(), mapInfo[id].nRandomPos) && PosOk(Model(), |vRandom| - 1)
      requires !mapInfo[id].fInTried && mapInfo[id].nRefCount == 0
      modifies this
      ensures Model() == AddrManModel.Delete(old(Model()), id)
    {
      SwapRandom(mapInfo[id].nRandomPos, |vRandom| - 1);
      vRandom := vRandom[..|vRandom| - 1];
      mapAddr := mapAddr - {mapInfo[id].Ip()};
      mapInfo := mapInfo - {id};
      nNew := nNew - 1;
    }

    method ClearNew(b: nat, i: nat)
      requires Shape() && b < h.nNewBuckets && i < h.nBucketSize && Wired(Model()) && ClearPre(Model(), Slot(b, i))
      modifies this, vvNew
      ensures Model() == AddrManModel.ClearNew(old(Model()), Slot(b, i))
    {
      TableAt(vvNew, b, i);
      if vvNew[b, i] != -1 {
        var id := vvNew[b, i];
        assert NewSlotOk(Model(), Slot(b, i));
        assert IdOk(Model(), id);
        NonEmpty(Model(), Slot(b, i));
        assert mapInfo[id].nRefCount > 0;
        mapInfo := Recount(mapInfo, id, mapInfo[id].nRefCount - 1);
        Store(vvNew, b, i, -1);
        if mapInfo[id].nRefCount == 0 {
          Delete(id);
        }
      }
    }

    method LeaveBucket(id: int, bucket: nat)
      requires Shape() && id in mapInfo && id != -1 && bucket < h.nNewBuckets
      modifies this, vvNew
      ensures
        var sl := h.NewSlotIn(old(mapInfo[id].stats.service), bucket);
        Model() == if Get(old(Model().vvNew), sl) == Some(id) then Unslot(old(Model()), sl) else old(Model())
    {
      var pos := h.Position(mapInfo[id].stats.service, true, bucket);
      TableAt(vvNew, bucket, pos);
      if vvNew[bucket, pos] == id {
        Store(vvNew, bucket, pos, -1);
        mapInfo := Recount(mapInfo, id, mapInfo[id].nRefCount - 1);
      }
    }

    method LeaveBuckets(id: int, ghost s: State)
      requires Shape() && Leavable(s, id) && s.h == h && Model() == Leaving(s, id, 0)
      modifies this, vvNew
      ensures Model() == Leaving(s, id, h.nNewBuckets)
    {
      for bucket := 0 to h.nNewBuckets
        invariant Model() == Leaving(s, id, bucket)
      {
        LeaveNext(id, bucket, s);
      }
    }

    method LeaveNext(id: int, bucket: nat, ghost s: State)
      requires Shape() && Leavable(s, id) && s.h == h && bucket < h.nNewBuckets && Model() == Leaving(s, id, bucket)
      modifies this, vvNew
      ensures Model() == Leaving(s, id, bucket + 1)
    {
      LeavingStep(s, id, bucket);
      LeaveBucket(id, bucket);
    }

    /** First half of `MakeTried`: leave every new bucket. */
    method LeaveNew(id: int)
      requires Shape() && Wired(Model()) && id in mapInfo && id != -1
      modifies this, vvNew
      ensures Model() == Strip(old(Model()), id)
    {
      LeavingAll(Model(), id);
      LeavingNone(Model(), id);
      LeaveBuckets(id, Model());
      nNew := nNew - 1;
    }

    method StepOut(kb: nat, ki: nat) returns (id: int)
      requires Shape() && kb < h.nTriedBuckets && ki < h.nBucketSize && TriedSlotOk(Model(), Slot(kb, ki))
      modifies this, vvTried
      ensures Model() == Evict(old(Model()), Slot(kb, ki)) && id == old(Model().vvTried[Slot(kb, ki)])
    {
      TableAt(vvTried, kb, ki);
      id := vvTried[kb, ki];
      mapInfo := mapInfo[id := mapInfo[id].(fInTried := false)];
      Store(vvTried, kb, ki, -1);
      nTried := nTried - 1;
    }

    method EnterNew(id: int, b: nat, i: nat)
      requires Shape() && b < h.nNewBuckets && i < h.nBucketSize && id in mapInfo && id != -1
      modifies this, vvNew
      ensures Model() == Enter(old(Model()), id, Slot(b, i))
    {
      mapInfo := Recount(mapInfo, id, mapInfo[id].nRefCount + 1);
      Store(vvNew, b, i, id);
    }

    /** Second half: the occupant of the tried slot goes back to its new bucket. */
    method SendBack(kb: nat, ki: nat)
      requires Shape() && kb < h.nTriedBuckets && ki < h.nBucketSize
      requires Wired(Model()) && DisplacePre(Model(), Slot(kb, ki))
      modifies this, vvNew, vvTried
      ensures Model() == Displace(old(Model()), Slot(kb, ki))
    {
      SendBackSteps(Model(), Slot(kb, ki));
      var id := StepOut(kb, ki);
      var b := h.NewBucket(mapInfo[id].Ip(), mapInfo[id].stats.source);
      var i := h.Position(mapInfo[id].stats.service, true, b);
      ClearNew(b, i);
      assert mapInfo[id].nRefCount == 0;
      EnterNew(id, b, i);
      nNew := nNew + 1;
    }

    method EnterTried(id: int, kb: nat, ki: nat)
      requires Shape() && id in mapInfo && id != -1 && Slot(kb, ki) == h.TriedSlot(mapInfo[id].stats.service)
      modifies this, vvTried
      ensures Model() == Promote(old(Model()), id)
    {
      Store(vvTried, kb, ki, id);
      nTried := nTried + 1;
      mapInfo := mapInfo[id := mapInfo[id].(fInTried := true)];
    }

    method MakeTried(id: int)
      requires Shape() && Inv(Model()) && id in mapInfo && !mapInfo[id].fInTried && MakeTriedPre(Model(), id)
      modifies this, vvNew, vvTried
      ensures Model() == AddrManMoves.MakeTried(old(Model()), id)
    {
      ghost var s := Model();
      assert IdOk(s, id);
      StripKeeps(s, id, Abstract(s)) by { AbstractShows(s); }
      FreeKeeps(Strip(s, id), id, Abstract(Strip(s, id))) by { AbstractShows(Strip(s, id)); }
      LeaveNew(id);
      assert mapInfo[id].nRefCount == 0;
      var addr := mapInfo[id].stats.service;
      var kb := h.TriedBucket(addr);
      var ki := h.Position(addr, false, kb);
      TableAt(vvTried, kb, ki);
      if vvTried[kb, ki] != -1 {
        SendBack(kb, ki);
      }
      TableAt(vvTried, kb, ki);
      assert vvTried[kb, ki] == -1;
      EnterTried(id, kb, ki);
    }

    method Find(ip: Ip) returns (r: Option<int>)
      ensures r == if ip in mapAddr && mapAddr[ip] in mapInfo then Some(mapAddr[ip]) else None
    {
      if ip !in mapAddr || mapAddr[ip] !in mapInfo {
        return None;
      }
      return Some(mapAddr[ip]);
    }

    method SetStats(id: int, st: Stats)
      requires id in mapInfo
      modifies this`mapInfo
      ensures Model() == Restat(old(Model()), id, st)
    {
      mapInfo := mapInfo[id := mapInfo[id].(stats := st)];
    }

    method IsIn(id: int, nB: nat) returns (found: bool)
      requires Shape() && id in mapInfo && id != -1 && nB < h.nNewBuckets
      ensures found <==> InBucket(Model(), id, nB)
    {
      var nBpos := h.Position(mapInfo[id].stats.service, true, nB);
      TableAt(vvNew, nB, nBpos);
      found := vvNew[nB, nBpos] == id;
    }

    /** The search of `Good_` for a bucket holding the entry, from a random start: it cannot fail. */
    method FindBucket(id: int, nRnd: nat) returns (nUBucket: int)
      requires Shape() && Inv(Model()) && id in mapInfo && !mapInfo[id].fInTried && nRnd < h.nNewBuckets
      ensures 0 <= nUBucket < h.nNewBuckets && InBucket(Model(), id, nUBucket)
    {
      ghost var s := Model();
      assert id != -1 by { assert IdOk(s, id); }
      nUBucket := -1;
      var n := 0;
      while n < h.nNewBuckets
        invariant 0 <= n <= h.nNewBuckets && nUBucket == -1
        invariant forall m | 0 <= m < n :: !InBucket(s, id, Wrapped(m, nRnd, h.nNewBuckets))
      {
        var nB := Wrapped(n, nRnd, h.nNewBuckets);
        var found := IsIn(id, nB);
        if found {
          nUBucket := nB;
          return;
        }
        n := n + 1;
      }
      var b := SomeBucket(s, id);
      var m := WrapAround(b, nRnd, h.nNewBuckets);
      assert false;
    }

    /** The part of `Good_` before the tables are touched. */
    method Touch(addr: Service, nTime: int) returns (r: Option<int>)
      modifies this
      ensures r == HeldBy(old(Model()), addr)
      ensures Model() == Touched(old(Model()), addr, nTime)
    {
      nLastGood := nTime;
      r := Find(addr.ip);
      if r.None? || mapInfo[r.value].stats.service != addr {
        return None;
      }
      var id := r.value;
      SetStats(id, GoodStats(mapInfo[id].stats, nTime));
    }

    method Good_(addr: Service, nTime: int, nRnd: nat)
      requires Shape() && Inv(Model()) && nRnd < h.nNewBuckets
      modifies this, vvNew, vvTried
      ensures Inv(Model())
      ensures Abstract(Model()) == AbsGood(h, old(Abstract(Model())), addr, nTime)
    {
      ghost var a := Abstract(Model());
      AbstractShows(Model());
      GoodUpdate(Model(), addr, nTime, a);
      var found := Touch(addr, nTime);
      if found.Some? && !mapInfo[found.value].fInTried {
        var nUBucket := FindBucket(found.value, nRnd);
        MakeTriedKeeps(Model(), found.value, AbsTouched(a, addr, nTime));
        MakeTried(found.value);
      }
      ShowsIsUnique(Model(), AbsGood(h, a, addr, nTime));
    }

    method Attempt_(addr: Service, fCountFailure: bool, nTime: int)
      requires Shape() && Inv(Model())
      modifies this
      ensures Inv(Model())
      ensures Abstract(Model()) == AbsAttempt(old(Abstract(Model())), addr, fCountFailure, nTime)
    {
      ghost var a := Abstract(Model());
      AbstractShows(Model());
      var found := Find(addr.ip);
      ReadIp(Model(), addr.ip, a);
      if found.None? || mapInfo[found.value].stats.service != addr {
        return;
      }
      var id := found.value;
      var st := mapInfo[id].stats.(nLastTry := nTime);
      if fCountFailure && st.nLastCountAttempt < nLastGood {
        st := st.(nLastCountAttempt := nTime, nAttempts := st.nAttempts + 1);
      }
      RestatKeeps(Model(), id, st, {}, {});
      RestatShows(Model(), id, st, a);
      SetStats(id, st);
      ShowsIsUnique(Model(), WithStats(a, st));
    }

    method Connected_(addr: Service, nTime: int)
      requires Shape() && Inv(Model())
      modifies this
      ensures Inv(Model())
      ensures Abstract(Model()) == AbsConnected(old(Abstract(Model())), addr, nTime)
    {
      ghost var a := Abstract(Model());
      AbstractShows(Model());
      var found := Find(addr.ip);
      ReadIp(Model(), addr.ip, a);
      if found.None? || mapInfo[found.value].stats.service != addr {
        return;
      }
      var id := found.value;
      if nTime - mapInfo[id].stats.nTime > 20 * 60 {
        var st := mapInfo[id].stats.(nTime := U32(nTime));
        RestatKeeps(Model(), id, st, {}, {});
        RestatShows(Model(), id, st, a);
        SetStats(id, st);
        ShowsIsUnique(Model(), WithStats(a, st));
      }
    }

    method SetServices_(addr: Service, nServices: Services)
      requires Shape() && Inv(Model())
      modifies this
      ensures Inv(Model())
      ensures Abstract(Model()) == AbsSetServices(old(Abstract(Model())), addr, nServices)
    {
      ghost var a := Abstract(Model());
      AbstractShows(Model());
      var found := Find(addr.ip);
      ReadIp(Model(), addr.ip, a);
      if found.None? || mapInfo[found.value].stats.service != addr {
        return;
      }
      var id := found.value;
      var st := mapInfo[id].stats.(nServices := nServices);
      RestatKeeps(Model(), id, st, {}, {});
      RestatShows(Model(), id, st, a);
      SetStats(id, st);
      ShowsIsUnique(Model(), WithStats(a, st));
    }

    /** The end of `Add_`: find the slot and take it, or give up. */
    method PlaceNew(id: int, source: Ip, nNow: int)
      requires Shape() && Wired(Model()) && id in mapInfo && id != -1 && mapInfo[id].nRefCount >= 0 && !mapInfo[id].fInTried
      requires PlacePre(Model(), id, h.NewSlot(mapInfo[id].stats.service, source))
      modifies this, vvNew
      ensures Model() == Place(old(Model()), id, h.NewSlot(old(mapInfo[id].stats.service), source), nNow)
    {
      var b := h.NewBucket(mapInfo[id].Ip(), source);
      var i := h.Position(mapInfo[id].stats.service, true, b);
      TableAt(vvNew, b, i);
      if vvNew[b, i] != id {
        var fInsert := vvNew[b, i] == -1;
        if !fInsert {
          var existing := mapInfo[vvNew[b, i]];
          if existing.stats.IsTerrible(nNow) || (existing.nRefCount > 1 && mapInfo[id].nRefCount == 0) {
            fInsert := true;
          }
        }
        if fInsert {
          ClearNew(b, i);
          EnterNew(id, b, i);
        } else if mapInfo[id].nRefCount == 0 {
          Delete(id);
        }
      }
    }

    method Announce(id: int, addr: Address, penalty: int, nNow: int)
      requires id in mapInfo
      modifies this
      ensures Model() == Heard(old(Model()), id, addr, penalty, nNow)
    {
      var st := UpdatedStats(mapInfo[id].stats, addr, penalty, nNow);
      SetStats(id, st);
    }

    method Admit(addr: Address, source: Ip, penalty: int) returns (id: int)
      modifies this
      ensures Model() == Created(old(Model()), addr, source, penalty) && id == old(nIdCount)
    {
      id := Create(NewStats(addr, source));
      SetStats(id, mapInfo[id].stats.(nTime := U32(Max(0, mapInfo[id].stats.nTime - penalty))));
      nNew := nNew + 1;
    }

    /** The stochastic test: 2^N times harder with N references. */
    method Unlucky(nRefCount: int, rnd: nat) returns (r: bool)
      ensures nRefCount >= 0 ==> Pow2(nRefCount) > 0 && r == (rnd % Pow2(nRefCount) != 0)
    {
      var nFactor := 1;
      var n := 0;
      while n < nRefCount
        invariant 0 <= n && (nRefCount >= 0 ==> n <= nRefCount) && nFactor == Pow2(n) && nFactor >= 1
      {
        nFactor := nFactor * 2;
        n := n + 1;
      }
      r := nFactor > 1 && rnd % nFactor != 0;
    }

    method Settle(id: int, source: Ip, nNow: int, ghost a: Abs)
      requires Shape() && Linked(Model(), {}, {id}) && Shows(Model(), a)
      requires id in mapInfo && !mapInfo[id].fInTried && mapInfo[id].nRefCount < BUCKETS_PER_ADDRESS && mapInfo[id].Ip() in a.infos
      modifies this, vvNew
      ensures Inv(Model()) && Abstract(Model()) == AbsPlace(h, a, old(mapInfo[id].Ip()), source, nNow)
    {
      assert id >= 0 && mapInfo[id].nRefCount >= 0 by { assert IdOk(Model(), id); }
      ghost var ip := mapInfo[id].Ip();
      PlaceKeeps(Model(), id, source, nNow, a);
      PlaceNew(id, source, nNow);
      ShowsIsUnique(Model(), AbsPlace(h, a, ip, source, nNow));
    }

    /** The part of `Add_` for a known entry, up to its early returns. */
    method Hear(id: int, addr: Address, penalty: int, nNow: int, rnd: nat) returns (more: bool)
      requires Shape() && Wired(Model()) && id in mapInfo
      modifies this
      ensures Model() == Heard(old(Model()), id, addr, penalty, nNow)
      ensures more <==> !Unwanted(mapInfo[id], addr, rnd)
    {
      assert mapInfo[id].nRefCount >= 0 by { assert IdOk(Model(), id); }
      Announce(id, addr, penalty, nNow);
      var e := mapInfo[id];
      if addr.nTime == 0 || (e.stats.nTime != 0 && addr.nTime <= e.stats.nTime) {
        return false;
      }
      if e.fInTried {
        return false;
      }
      if e.nRefCount == BUCKETS_PER_ADDRESS {
        return false;
      }
      var unlucky := Unlucky(e.nRefCount, rnd);
      more := !unlucky;
    }

    /** `nNow` and `nLater` are the adjusted clock at its two readings, `rnd` the random draw. */
    method Add_(addr: Address, fRoutable: bool, source: Ip, nTimePenalty: int, nNow: int, nLater: int, rnd: nat) returns (fNew: bool)
      requires Shape() && Inv(Model())
      modifies this, vvNew
      ensures Inv(Model())
      ensures fNew <==> fRoutable && addr.service.ip !in old(Abstract(Model())).infos
      ensures Abstract(Model()) == AbsAdd(h, old(Abstract(Model())), addr, fRoutable, source, nTimePenalty, nNow, nLater, rnd)
    {
      if !fRoutable {
        return false;
      }
      ghost var a, ip := Abstract(Model()), addr.service.ip;
      AbstractShows(Model());
      var found := Find(addr.service.ip);
      ReadIp(Model(), ip, a);
      var penalty := if addr.service.ip == source then 0 else nTimePenalty;
      if found.Some? {
        var id := found.value;
        HeardKeeps(Model(), id, addr, penalty, nNow, rnd, a);
        ghost var a1 := a.(infos := a.infos[ip := HeardStats(a.infos[ip], addr, penalty, nNow)]);
        var more := Hear(id, addr, penalty, nNow, rnd);
        if more {
          Settle(id, source, nLater, a1);
        } else {
          ShowsIsUnique(Model(), a1);
        }
        fNew := false;
      } else {
        CreatedKeeps(Model(), addr, source, penalty, a);
        var id := Admit(addr, source, penalty);
        Settle(id, source, nLater, WithStats(a, FirstStats(addr, source, penalty)));
        fNew := true;
      }
    }

    /** `rnd` supplies the random numbers and `clock` its reading for each address. */
    method GetAddr_(rnd: nat -> nat, clock: nat -> int) returns (vAddr: seq<Address>)
      requires Shape() && Inv(Model())
      modifies this
      ensures Inv(Model()) && Abstract(Model()) == old(Abstract(Model()))
      ensures GoodSample(old(Abstract(Model())).infos, vAddr, ListLimit(old(|vRandom|)), clock, old(|vRandom|))
    {
      ghost var a := Abstract(Model());
      AbstractShows(Model());
      SamplingStarts(Model(), a, clock);
      vAddr := [];
      var nNodes := ListLimit(|vRandom|);
      var n := 0;
      while n < |vRandom| && |vAddr| < nNodes
        invariant n <= |vRandom| == old(|vRandom|) && |vAddr| <= nNodes
        invariant Sampling(Model(), a, n, vAddr, clock)
      {
        var nRndPos := rnd(n) % (|vRandom| - n) + n;
        SamplingStep(Model(), a, n, vAddr, nRndPos, clock);
        SwapRandom(n, nRndPos);
        var st := mapInfo[vRandom[n]].stats;
        if !st.IsTerrible(clock(n)) {
          vAddr := vAddr + [AddressOf(st)];
        }
        n := n + 1;
      }
      SamplingEnds(Model(), a, n, vAddr, nNodes, clock);
    }
  }

  // ----- whole runs -----

  datatype Op =
    | Add(address: Address, fRoutable: bool, source: Ip, nTimePenalty: int, nNow: int, nLater: int, rnd: nat)
    | Good(addr: Service, nTime: int, rnd: nat)
    | Attempt(addr: Service, fCountFailure: bool, nTime: int)
    | Connected(addr: Service, nTime: int)
    | SetServices(addr: Service, nServices: Services)
    | GetAddr(clock: nat -> int, rnds: nat -> nat)

  ghost function AbsStep(h: Hashing, a: Abs, op: Op): Abs
    requires h.Ok()
  {
    match op
    case Add(address, fRoutable, source, nTimePenalty, nNow, nLater, rnd) => AbsAdd(h, a, address, fRoutable, source, nTimePenalty, nNow, nLater, rnd)
    case Good(addr, nTime, _) => AbsGood(h, a, addr, nTime)
    case Attempt(addr, fCountFailure, nTime) => AbsAttempt(a, addr, fCountFailure, nTime)
    case Connected(addr, nTime) => AbsConnected(a, addr, nTime)
    case SetServices(addr, nServices) => AbsSetServices(a, addr, nServices)
    case GetAddr(_, _) => a
  }

  ghost function AbsRun(h: Hashing, ops: seq<Op>): Abs
    requires h.Ok()
  {
    if ops == [] then Abs(map[], map[], map[], 1) else AbsStep(h, AbsRun(h, ops[..|ops| - 1]), ops[|ops| - 1])
  }

  /** The manager is consistent and is what `a` says. */
  ghost predicate Is(m: AddrMan, h: Hashing, a: Abs)
    reads m, m.vvNew, m.vvTried
  {
    m.Shape() && m.h == h && Inv(m.Model()) && Abstract(m.Model()) == a
  }

  method DoAdd(m: AddrMan, op: Op, ghost h: Hashing, ghost a: Abs)
    requires Is(m, h, a) && op.Add?
    modifies m, m.vvNew, m.vvTried
    ensures Is(m, h, AbsStep(h, a, op))
  {
    var fNew := m.Add_(op.address, op.fRoutable, op.source, op.nTimePenalty, op.nNow, op.nLater, op.rnd);
  }

  method DoGood(m: AddrMan, op: Op, ghost h: Hashing, ghost a: Abs)
    requires Is(m, h, a) && op.Good?
    modifies m, m.vvNew, m.vvTried
    ensures Is(m, h, AbsStep(h, a, op))
  {
    m.Good_(op.addr, op.nTime, op.rnd % m.h.nNewBuckets);
  }

  method Do(m: AddrMan, op: Op, ghost h: Hashing, ghost a: Abs)
    requires Is(m, h, a)
    modifies m, m.vvNew, m.vvTried
    ensures Is(m, h, AbsStep(h, a, op))
  {
    match op
    case Add(_, _, _, _, _, _, _) => DoAdd(m, op, h, a);
    case Good(_, _, _) => DoGood(m, op, h, a);
    case Attempt(addr, fCountFailure, nTime) => m.Attempt_(addr, fCountFailure, nTime);
    case Connected(addr, nTime) => m.Connected_(addr, nTime);
    case SetServices(addr, nServices) => m.SetServices_(addr, nServices);
    case GetAddr(clock, rnds) => var vAddr := m.GetAddr_(rnds, clock);
  }

  /** The clock is past zero where a time is recorded. */
  predicate ClockOk(op: Op) {
    match op
    case Good(_, nTime, _) => nTime > 0
    case Attempt(_, _, nTime) => nTime >= 0
    case _ => true
  }

  lemma StepTimes(s: State, t: State, op: Op)
    requires Inv(s) && Inv(t) && t.h == s.h && Abstract(t) == AbsStep(s.h, Abstract(s), op) && TimesOk(s) && ClockOk(op)
    ensures TimesOk(t)
  {
    var a := Abstract(s);
    AbstractShows(s);
    AbstractShows(t);
    TimesAbstract(s, a);
    TimesAbstract(t, Abstract(t));
    TriedIsKnown(s, a);
    AbsStepTimes(s.h, a, op);
  }

  lemma AbsStepTimes(h: Hashing, a: Abs, op: Op)
    requires h.Ok() && AbsTimesOk(a) && ClockOk(op) && forall sl | sl in a.inTried :: a.inTried[sl] in a.infos
    ensures AbsTimesOk(AbsStep(h, a, op))
  {
    match op
    case Add(address, fRoutable, source, nTimePenalty, nNow, nLater, rnd) =>
      AddTimes(h, a, address, fRoutable, source, nTimePenalty, nNow, nLater, rnd);
    case Good(addr, nTime, _) => GoodTimes(h, a, addr, nTime);
    case Attempt(addr, fCountFailure, nTime) => AttemptTimes(a, addr, fCountFailure, nTime);
    case _ =>
  }

  lemma TriedIsKnown(s: State, a: Abs)
    requires Inv(s) && Shows(s, a)
    ensures forall sl | sl in a.inTried :: a.inTried[sl] in a.infos
  {
    forall sl | sl in a.inTried ensures a.inTried[sl] in a.infos {
      assert IpIn(s, s.vvTried, sl) == Get(a.inTried, sl);
      ReadEntry(s, s.vvTried[sl], a);
    }
  }

  ghost predicate Clocked(ops: seq<Op>) {
    forall i | 0 <= i < |ops| :: ClockOk(ops[i])
  }

  /** What holds of the manager after these operations. */
  ghost predicate Reached(m: AddrMan, h: Hashing, ops: seq<Op>)
    requires h.Ok()
    reads m, m.vvNew, m.vvTried
  {
    Is(m, h, AbsRun(h, ops)) && (Clocked(ops) ==> TimesOk(m.Model()))
  }

  lemma RunNext(h: Hashing, ops: seq<Op>, op: Op)
    requires h.Ok()
    ensures AbsRun(h, ops + [op]) == AbsStep(h, AbsRun(h, ops), op)
    ensures Clocked(ops + [op]) <==> Clocked(ops) && ClockOk(op)
  {
    assert (ops + [op])[..|ops|] == ops;
    forall i | 0 <= i < |ops| ensures (ops + [op])[i] == ops[i] {
    }
    assert (ops + [op])[|ops|] == op;
  }

  method Step(m: AddrMan, op: Op, ghost h: Hashing, ghost ops: seq<Op>)
    requires h.Ok() && Reached(m, h, ops)
    modifies m, m.vvNew, m.vvTried
    ensures Reached(m, h, ops + [op])
  {
    ghost var s := m.Model();
    RunNext(h, ops, op);
    Do(m, op, h, AbsRun(h, ops));
    if Clocked(ops) && ClockOk(op) {
      StepTimes(s, m.Model(), op);
    }
  }

  /** Every run of public operations from an empty manager keeps the invariant and equals its id-free description. */
  method RunAll(h: Hashing, ops: seq<Op>) returns (m: AddrMan)
    requires h.Ok()
    ensures Reached(m, h, ops)
  {
    m := new AddrMan(h);
    RunFrom(m, h, ops);
  }

  method RunFrom(m: AddrMan, h: Hashing, ops: seq<Op>)
    requires h.Ok() && Reached(m, h, [])
    modifies m, m.vvNew, m.vvTried
    ensures Reached(m, h, ops)
  {
    ghost var done: seq<Op> := [];
    for i := 0 to |ops|
      invariant done == ops[..i] && Reached(m, h, done)
    {
      OneMore(ops, i);
      Step(m, ops[i], h, done);
      done := done + [ops[i]];
    }
    AllOps(ops);
  }

  lemma OneMore(ops: seq<Op>, i: nat)
    requires i < |ops|
    ensures ops[..i] + [ops[i]] == ops[..i + 1]
  {
  }

  lemma AllOps(ops: seq<Op>)
    ensures ops[..|ops|] == ops
  {
  }

  lemma SendBackSteps(s: State, sl: Slot)
    requires Wired(s) && DisplacePre(s, sl)
    ensures
      var id, s1, home := s.vvTried[sl], Evict(s, sl), HomeSlot(s, s.vvTried[sl]);
      && id >= 0 && Wired(s1) && s1.mapInfo[id].stats == s.mapInfo[id].stats
      && ClearNew(s1, home).mapInfo[id].nRefCount == 0
  {
    var id, s1, home := s.vvTried[sl], Evict(s, sl), HomeSlot(s, s.vvTried[sl]);
    EvictWired(s, sl);
    assert IdOk(s1, id);
    NoSlots(s1, id, home);
    ClearFrame(s1, home, id);
  }

  // ----- the slots of one entry, bucket by bucket -----

  ghost function SlotsBelow(t: Table, id: int, n: nat): set<Slot> {
    set sl | sl in t && t[sl] == id && sl.bucket < n
  }

  ghost predicate Leavable(s: State, id: int) {
    Wired(s) && id in s.mapInfo && id != -1
  }

  /** The entry has left the buckets below `n`. */
  ghost function Leaving(s: State, id: int, n: nat): State
    requires id in s.mapInfo
  {
    s.(vvNew := map sl | sl in s.vvNew && !(s.vvNew[sl] == id && sl.bucket < n) :: s.vvNew[sl],
       mapInfo := Recount(s.mapInfo, id, s.mapInfo[id].nRefCount - |SlotsBelow(s.vvNew, id, n)|))
  }

  lemma LeavingNone(s: State, id: int)
    requires id in s.mapInfo
    ensures Leaving(s, id, 0) == s
  {
    assert SlotsBelow(s.vvNew, id, 0) == {};
    assert Recount(s.mapInfo, id, s.mapInfo[id].nRefCount) == s.mapInfo;
  }

  lemma LeavingStep(s: State, id: int, n: nat)
    requires Wired(s) && id in s.mapInfo && n < s.h.nNewBuckets
    ensures
      var sl := s.h.NewSlotIn(s.mapInfo[id].stats.service, n);
      var s1 := Leaving(s, id, n);
      && id in s1.mapInfo && s1.mapInfo[id].stats == s.mapInfo[id].stats
      && Leaving(s, id, n + 1) == if Get(s1.vvNew, sl) == Some(id) then Unslot(s1, sl) else s1
  {
    var sl := s.h.NewSlotIn(s.mapInfo[id].stats.service, n);
    var s1, s2 := Leaving(s, id, n), Leaving(s, id, n + 1);
    forall x | x in s.vvNew && s.vvNew[x] == id && x.bucket == n ensures x == sl {
      assert NewSlotOk(s, x);
    }
    LeavingSlot(s, id, n, sl);
    if Get(s1.vvNew, sl) == Some(id) {
      RecountAgain(s.mapInfo, id, s1.mapInfo[id].nRefCount, s1.mapInfo[id].nRefCount - 1);
    }
  }

  lemma LeavingSlot(s: State, id: int, n: nat, sl: Slot)
    requires id in s.mapInfo && sl.bucket == n
    requires forall x | x in s.vvNew && s.vvNew[x] == id && x.bucket == n :: x == sl
    ensures
      var t, t' := Leaving(s, id, n).vvNew, Leaving(s, id, n + 1).vvNew;
      if Get(t, sl) == Some(id) then t' == t - {sl} && |SlotsBelow(s.vvNew, id, n + 1)| == |SlotsBelow(s.vvNew, id, n)| + 1
      else t' == t && SlotsBelow(s.vvNew, id, n + 1) == SlotsBelow(s.vvNew, id, n)
  {
    var t, t' := Leaving(s, id, n).vvNew, Leaving(s, id, n + 1).vvNew;
    BelowNext(s.vvNew, id, n, sl);
    if Get(t, sl) == Some(id) {
      SameLookup(t', t - {sl});
    } else {
      SameLookup(t', t);
    }
  }

  lemma BelowNext(t: Table, id: int, n: nat, sl: Slot)
    requires sl.bucket == n && forall x | x in t && t[x] == id && x.bucket == n :: x == sl
    ensures Get(t, sl) == Some(id) ==> |SlotsBelow(t, id, n + 1)| == |SlotsBelow(t, id, n)| + 1
    ensures Get(t, sl) != Some(id) ==> SlotsBelow(t, id, n + 1) == SlotsBelow(t, id, n)
  {
    if Get(t, sl) == Some(id) {
      assert SlotsBelow(t, id, n + 1) == SlotsBelow(t, id, n) + {sl};
    } else {
      assert SlotsBelow(t, id, n + 1) == SlotsBelow(t, id, n);
    }
  }

  lemma LeavingAll(s: State, id: int)
    requires Wired(s) && id in s.mapInfo
    ensures Leaving(s, id, s.h.nNewBuckets).(nNew := s.nNew - 1) == Strip(s, id)
  {
    forall sl | sl in s.vvNew ensures sl.bucket < s.h.nNewBuckets { assert NewSlotOk(s, sl); }
    assert SlotsBelow(s.vvNew, id, s.h.nNewBuckets) == SlotsOf(s.vvNew, id);
    SameLookup(Leaving(s, id, s.h.nNewBuckets).vvNew, Strip(s, id).vvNew);
  }

  lemma SomeBucket(s: State, id: int) returns (b: nat)
    requires Inv(s) && id in s.mapInfo && !s.mapInfo[id].fInTried
    ensures b < s.h.nNewBuckets && InBucket(s, id, b)
  {
    assert IdOk(s, id);
    assert SlotsOf(s.vvNew, id) != {};
    var sl :| sl in SlotsOf(s.vvNew, id);
    assert NewSlotOk(s, sl);
    b := sl.bucket;
  }

  ghost predicate InBucket(s: State, id: int, b: nat)
    requires s.h.Ok() && id in s.mapInfo
  {
    Get(s.vvNew, s.h.NewSlotIn(s.mapInfo[id].stats.service, b)) == Some(id)
  }

  function Wrapped(m: nat, nRnd: nat, n: nat): (b: nat)
    requires n > 0
    ensures b < n
  {
    (m + nRnd) % n
  }

  lemma WrapAround(b: nat, nRnd: nat, n: nat) returns (m: nat)
    requires b < n && nRnd < n
    ensures m < n && Wrapped(m, nRnd, n) == b
  {
    if b >= nRnd {
      m := b - nRnd;
      DivModUnique(b, n, 0, b);
    } else {
      m := b + n - nRnd;
      DivModUnique(b + n, n, 1, b);
    }
  }

  lemma LastGoodOnly(s: State, nTime: int, a: Abs)
    requires Inv(s) && Shows(s, a)
    ensures Inv(s.(nLastGood := nTime)) && Shows(s.(nLastGood := nTime), a.(nLastGood := nTime))
  {
    var s' := s.(nLastGood := nTime);
    forall k | k in s'.mapInfo ensures IdOk(s', k) { assert IdOk(s, k); }
    forall ip | ip in s'.mapAddr ensures IpOk(s', ip) { assert IpOk(s, ip); }
    forall k | 0 <= k < |s'.vRandom| ensures PosOk(s', k) { assert PosOk(s, k); }
    forall x | x in s'.vvTried ensures TriedSlotOk(s', x) { assert TriedSlotOk(s, x); }
    forall x | x in s'.vvNew ensures NewSlotOk(s', x) { assert NewSlotOk(s, x); }
    assert NewIds(s') == NewIds(s) && TriedIds(s') == TriedIds(s);
    forall ip ensures StatsAt(s', ip) == Get(a.infos, ip) { assert StatsAt(s, ip) == Get(a.infos, ip); }
    forall x ensures IpIn(s', s'.vvNew, x) == Get(a.inNew, x) { assert IpIn(s, s.vvNew, x) == Get(a.inNew, x); }
    forall x ensures IpIn(s', s'.vvTried, x) == Get(a.inTried, x) { assert IpIn(s, s.vvTried, x) == Get(a.inTried, x); }
  }

  lemma ReadIp(s: State, ip: Ip, a: Abs)
    requires Wired(s) && Shows(s, a)
    ensures ip in a.infos <==> ip in s.mapAddr && s.mapAddr[ip] in s.mapInfo
    ensures ip in s.mapAddr ==> s.mapAddr[ip] in s.mapInfo && a.infos[ip] == s.mapInfo[s.mapAddr[ip]].stats && a.infos[ip].service.ip == ip
  {
    assert StatsAt(s, ip) == Get(a.infos, ip);
    if ip in s.mapAddr { assert IpOk(s, ip); }
  }

  function HeldBy(s: State, addr: Service): Option<int> {
    if addr.ip in s.mapAddr && s.mapAddr[addr.ip] in s.mapInfo && s.mapInfo[s.mapAddr[addr.ip]].stats.service == addr
    then Some(s.mapAddr[addr.ip]) else None
  }

  function Touched(s: State, addr: Service, nTime: int): State {
    var s0 := s.(nLastGood := nTime);
    match HeldBy(s, addr)
    case None => s0
    case Some(id) => Restat(s0, id, GoodStats(s.mapInfo[id].stats, nTime))
  }

  function AbsTouched(a: Abs, addr: Service, nTime: int): Abs {
    var a0 := a.(nLastGood := nTime);
    if Known(a, addr) then WithStats(a0, GoodStats(a.infos[addr.ip], nTime)) else a0
  }

  lemma GoodUpdate(s: State, addr: Service, nTime: int, a: Abs)
    requires Inv(s) && Shows(s, a)
    ensures HeldBy(s, addr).Some? <==> Known(a, addr)
    ensures Inv(Touched(s, addr, nTime)) && Shows(Touched(s, addr, nTime), AbsTouched(a, addr, nTime))
    ensures Known(a, addr) ==> Touched(s, addr, nTime).mapInfo[HeldBy(s, addr).value].stats.service == addr
    ensures Known(a, addr) ==> (Touched(s, addr, nTime).mapInfo[HeldBy(s, addr).value].fInTried <==> AbsInTried(s.h, a, addr.ip))
  {
    LastGoodOnly(s, nTime, a);
    ReadIp(s, addr.ip, a);
    if Known(a, addr) {
      var id := s.mapAddr[addr.ip];
      var st := GoodStats(s.mapInfo[id].stats, nTime);
      ReadEntry(s, id, a);
      RestatKeeps(s.(nLastGood := nTime), id, st, {}, {});
      RestatShows(s.(nLastGood := nTime), id, st, a.(nLastGood := nTime));
    }
  }

  lemma NonEmpty(s: State, sl: Slot)
    requires s.h.Ok() && NewSlotOk(s, sl) && IdOk(s, s.vvNew[sl])
    ensures s.mapInfo[s.vvNew[sl]].nRefCount > 0
  {
    assert sl in SlotsOf(s.vvNew, s.vvNew[sl]);
  }
}
