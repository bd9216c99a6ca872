/** What the address manager's public operations do, said without ids, counts or random order. */
module AddrManSpec {
  import opened Arith
  import opened Options
  import opened Powers
  import opened AddrManModel
  import opened AddrManMoves

  /** Conversion to the 32-bit `nTime` field. */
  function U32(x: int): nat { x % 0x1_0000_0000 }

  /** The entry for exactly this address and port. */
  predicate Known(a: Abs, addr: Service) {
    addr.ip in a.infos && a.infos[addr.ip].service == addr
  }

  function WithStats(a: Abs, st: Stats): Abs {
    a.(infos := a.infos[st.service.ip := st])
  }

  function GoodStats(st: Stats, nTime: int): Stats {
    st.(nLastSuccess := nTime, nLastTry := nTime, nAttempts := 0)
  }

  ghost function AbsGood(h: Hashing, a: Abs, addr: Service, nTime: int): Abs
    requires h.Ok()
  {
    var a0 := a.(nLastGood := nTime);
    if !Known(a, addr) then a0
    else
      var a1 := WithStats(a0, GoodStats(a.infos[addr.ip], nTime));
      if AbsInTried(h, a, addr.ip) then a1 else AbsMakeTried(h, a1, addr)
  }

  function AttemptStats(st: Stats, fCountFailure: bool, nTime: int, nLastGood: int): Stats {
    var st1 := st.(nLastTry := nTime);
    if fCountFailure && st.nLastCountAttempt < nLastGood
    then st1.(nLastCountAttempt := nTime, nAttempts := st.nAttempts + 1) else st1
  }

  function AbsAttempt(a: Abs, addr: Service, fCountFailure: bool, nTime: int): Abs {
    if Known(a, addr) then WithStats(a, AttemptStats(a.infos[addr.ip], fCountFailure, nTime, a.nLastGood)) else a
  }

  function AbsConnected(a: Abs, addr: Service, nTime: int): Abs {
    if Known(a, addr) && nTime - a.infos[addr.ip].nTime > 20 * 60
    then WithStats(a, a.infos[addr.ip].(nTime := U32(nTime))) else a
  }

  function AbsSetServices(a: Abs, addr: Service, nServices: Services): Abs {
    if Known(a, addr) then WithStats(a, a.infos[addr.ip].(nServices := nServices)) else a
  }

  /** What a repeated announcement changes in a known entry. */
  function HeardStats(st: Stats, addr: Address, nTimePenalty: int, nNow: int): Stats {
    var nUpdateInterval := if nNow - addr.nTime < 24 * 60 * 60 then 60 * 60 else 24 * 60 * 60;
    var st1 :=
      if addr.nTime != 0 && (st.nTime == 0 || st.nTime < addr.nTime - nUpdateInterval - nTimePenalty)
      then st.(nTime := U32(Max(0, addr.nTime - nTimePenalty))) else st;
    st1.(nServices := st1.nServices + addr.nServices)
  }

  function FirstStats(addr: Address, source: Ip, nTimePenalty: int): Stats {
    NewStats(addr, source).(nTime := U32(Max(0, addr.nTime - nTimePenalty)))
  }

  /** Give the entry the slot its source selects, if that slot is free or its occupant may go. */
  ghost function AbsPlace(h: Hashing, a: Abs, ip: Ip, source: Ip, nNow: int): Abs
    requires h.Ok() && ip in a.infos
  {
    var sl := h.NewSlot(a.infos[ip].service, source);
    if Get(a.inNew, sl) == Some(ip) then a
    else if sl !in a.inNew || MayReplace(a, a.inNew[sl], ip, nNow) then
      var a1 := AbsClear(a, sl);
      a1.(inNew := a1.inNew[sl := ip])
    else if AbsSlots(a, ip) == {} then a.(infos := a.infos - {ip})
    else a
  }

  ghost predicate MayReplace(a: Abs, there: Ip, ip: Ip, nNow: int) {
    there in a.infos && (a.infos[there].IsTerrible(nNow) || (|AbsSlots(a, there)| > 1 && AbsSlots(a, ip) == {}))
  }

  /** Whether a known entry may get another slot; `rnd` is the random draw. */
  ghost predicate WantsMore(h: Hashing, a: Abs, addr: Address, rnd: nat)
    requires h.Ok() && addr.service.ip in a.infos
  {
    var ip := addr.service.ip;
    var st := a.infos[ip];
    && addr.nTime != 0 && (st.nTime == 0 || st.nTime < addr.nTime)
    && !AbsInTried(h, a, ip)
    && |AbsSlots(a, ip)| != BUCKETS_PER_ADDRESS
    && rnd % Pow2(|AbsSlots(a, ip)|) == 0
  }

  /** `nNow` and `nLater` are the clock at its two readings. */
  ghost function AbsAdd(h: Hashing, a: Abs, addr: Address, fRoutable: bool, source: Ip, nTimePenalty: int, nNow: int, nLater: int, rnd: nat): Abs
    requires h.Ok()
  {
    var ip := addr.service.ip;
    var penalty := if ip == source then 0 else nTimePenalty;
    if !fRoutable then a
    else if ip in a.infos then
      var a1 := a.(infos := a.infos[ip := HeardStats(a.infos[ip], addr, penalty, nNow)]);
      if WantsMore(h, a1, addr, rnd) then AbsPlace(h, a1, ip, source, nLater) else a1
    else
      AbsPlace(h, WithStats(a, FirstStats(addr, source, penalty)), ip, source, nLater)
  }
}
