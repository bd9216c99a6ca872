/** The authors' own consistency check `CAddrMan::Check_` (src/addrman.cpp:385-459) and the invariant it tests. */
module AddrManCheck {
  import opened Arith
  import opened Options
  import opened AddrManModel
  import opened AddrManMoves
  import opened AddrManList
  import opened AddrManSaved
  import opened AddrMan

  /** Reading a missing address gives 0. */
  function IdAt(s: State, ip: Ip): int {
    if ip in s.mapAddr then s.mapAddr[ip] else 0
  }

  /** What is asked of one entry, before the tables are looked at. */
  predicate EntryPasses(s: State, id: int)
    requires id in s.mapInfo
  {
    var e := s.mapInfo[id];
    && (if e.fInTried then e.stats.nLastSuccess != 0 && e.nRefCount == 0 else 1 <= e.nRefCount <= BUCKETS_PER_ADDRESS)
    && IdAt(s, e.Ip()) == id
    && 0 <= e.nRandomPos < |s.vRandom| && s.vRandom[e.nRandomPos] == id
    && e.stats.nLastTry >= 0 && e.stats.nLastSuccess >= 0
  }

  method CheckEntry(m: AddrMan, n: int) returns (code: int)
    requires n in m.mapInfo
    ensures code == 0 <==> EntryPasses(m.Model(), n)
  {
    var info := m.mapInfo[n];
    if info.fInTried {
      if info.stats.nLastSuccess == 0 {
        return -1;
      }
      if info.nRefCount != 0 {
        return -2;
      }
    } else {
      if info.nRefCount < 0 || info.nRefCount > BUCKETS_PER_ADDRESS {
        return -3;
      }
      if info.nRefCount == 0 {
        return -4;
      }
    }
    if (if info.Ip() in m.mapAddr then m.mapAddr[info.Ip()] else 0) != n {
      return -5;
    }
    if info.nRandomPos < 0 || info.nRandomPos >= |m.vRandom| || m.vRandom[info.nRandomPos] != n {
      return -14;
    }
    if info.stats.nLastTry < 0 {
      return -6;
    }
    if info.stats.nLastSuccess < 0 {
      return -8;
    }
    return 0;
  }

  ghost predicate EntriesPass(s: State) {
    forall id | id in s.mapInfo :: EntryPasses(s, id)
  }

  ghost function CountsOf(s: State, ids: set<int>): map<int, int> {
    map id | id in ids && id in s.mapInfo && !s.mapInfo[id].fInTried :: s.mapInfo[id].nRefCount
  }

  lemma Pick<T>(xs: set<T>) returns (x: T)
    requires xs != {}
    ensures x in xs
  {
    x :| x in xs;
  }

  method CheckEntries(m: AddrMan) returns (code: int, setTried: set<int>, mapNew: map<int, int>)
    ensures code == 0 <==> EntriesPass(m.Model())
    ensures code == 0 ==> setTried == TriedIds(m.Model()) && mapNew == CountsOf(m.Model(), m.mapInfo.Keys)
  {
    ghost var s := m.Model();
    var todo := m.mapInfo.Keys;
    setTried, mapNew := {}, map[];
    while todo != {}
      invariant todo <= m.mapInfo.Keys
      invariant forall id | id in m.mapInfo && id !in todo :: EntryPasses(s, id)
      invariant setTried == TriedIds(s) - todo && mapNew == CountsOf(s, m.mapInfo.Keys - todo)
      decreases |todo|
    {
      ghost var some := Pick(todo);
      var n :| n in todo;
      code := CheckEntry(m, n);
      if code != 0 {
        return;
      }
      if m.mapInfo[n].fInTried {
        setTried := setTried + {n};
      } else {
        mapNew := mapNew[n := m.mapInfo[n].nRefCount];
      }
      todo := todo - {n};
    }
    return 0, setTried, mapNew;
  }

  // ----- the tried table -----

  ghost predicate TriedPasses(s: State)
    requires s.h.Ok()
  {
    forall sl {:trigger TriedSlotOk(s, sl)} | sl in s.vvTried :: TriedSlotOk(s, sl)
  }

  /** The slots before this one are in order; `rest` are the tried entries not met yet. */
  ghost predicate TriedSoFar(s: State, b: nat, i: nat, rest: set<int>)
    requires s.h.Ok()
  {
    && (forall sl {:trigger TriedSlotOk(s, sl)} | sl in s.vvTried && Precedes(sl, b, i) :: TriedSlotOk(s, sl))
    && rest == TriedIds(s) - Before(s.vvTried, b, i).Values
  }

  lemma MetBefore(s: State, b: nat, i: nat, rest: set<int>)
    requires s.h.Ok() && TriedSoFar(s, b, i, rest) && Slot(b, i) in s.vvTried
    ensures TriedSlotOk(s, Slot(b, i)) ==> s.vvTried[Slot(b, i)] in rest
  {
    var sl, id := Slot(b, i), s.vvTried[Slot(b, i)];
    forall other | other in Before(s.vvTried, b, i) ensures TriedSlotOk(s, sl) ==> s.vvTried[other] != id {
      assert TriedSlotOk(s, other);
    }
  }

  lemma NextTriedSlot(s: State, b: nat, i: nat, rest: set<int>)
    requires s.h.Ok() && TriedSoFar(s, b, i, rest)
    ensures Slot(b, i) !in s.vvTried ==> TriedSoFar(s, b, i + 1, rest)
    ensures Slot(b, i) in s.vvTried && TriedSlotOk(s, Slot(b, i)) ==> TriedSoFar(s, b, i + 1, rest - {s.vvTried[Slot(b, i)]})
  {
    var t, sl, t1 := Before(s.vvTried, b, i), Slot(b, i), Before(s.vvTried, b, i + 1);
    BeforeNext(s.vvTried, b, i);
    forall x ensures Precedes(x, b, i + 1) <==> Precedes(x, b, i) || x == sl {
      PrecedesNext(x, b, i);
    }
    if sl in s.vvTried {
      forall id ensures id in t1.Values <==> id in t.Values || id == s.vvTried[sl] {
        if id in t.Values {
          var x :| x in t && t[x] == id;
          assert x in t1 && t1[x] == id;
        }
        assert sl in t1 && t1[sl] == s.vvTried[sl];
      }
    }
  }

  method VisitTried(m: AddrMan, n: nat, i: nat, setTried: set<int>) returns (code: int, rest: set<int>)
    requires m.Shape() && n < m.h.nTriedBuckets && i < m.h.nBucketSize && TriedSoFar(m.Model(), n, i, setTried)
    ensures code == 0 ==> TriedSoFar(m.Model(), n, i + 1, rest)
    ensures code != 0 ==> !TriedPasses(m.Model())
  {
    ghost var s := m.Model();
    rest := setTried;
    TableAt(m.vvTried, n, i);
    NextTriedSlot(s, n, i, setTried);
    if m.vvTried[n, i] != -1 {
      MetBefore(s, n, i, setTried);
      var id := m.vvTried[n, i];
      if id !in rest {
        return -11, rest;
      }
      var service := m.mapInfo[id].stats.service;
      if m.h.TriedBucket(service) != n {
        return -17, rest;
      }
      if m.h.Position(service, false, n) != i {
        return -18, rest;
      }
      rest := rest - {id};
    }
    code := 0;
  }

  lemma InTable(t: array2<int>)
    ensures Within(TableOf(t), t.Length0, t.Length1)
  {
  }

  ghost predicate Within(t: Table, buckets: nat, size: nat) {
    forall sl | sl in t :: sl.bucket < buckets && sl.pos < size
  }

  lemma RowOver(t: Table, b: nat, buckets: nat, size: nat)
    requires Within(t, buckets, size)
    ensures Before(t, b + 1, 0) == Before(t, b, size) && forall sl | sl in t :: Precedes(sl, b, size) <==> Precedes(sl, b + 1, 0)
  {
  }

  lemma TableOver(t: Table, buckets: nat, size: nat)
    requires Within(t, buckets, size)
    ensures Before(t, 0, 0) == map[] && Before(t, buckets, 0) == t && forall sl | sl in t :: Precedes(sl, buckets, 0)
  {
  }

  method CheckTriedBucket(m: AddrMan, n: nat, setTried: set<int>) returns (code: int, rest: set<int>)
    requires m.Shape() && n < m.h.nTriedBuckets && TriedSoFar(m.Model(), n, 0, setTried)
    ensures code == 0 ==> TriedSoFar(m.Model(), n + 1, 0, rest)
    ensures code != 0 ==> !TriedPasses(m.Model())
  {
    ghost var s := m.Model();
    rest := setTried;
    for i := 0 to m.h.nBucketSize
      invariant TriedSoFar(s, n, i, rest)
    {
      code, rest := VisitTried(m, n, i, rest);
      if code != 0 {
        return;
      }
    }
    InTable(m.vvTried);
    RowOver(s.vvTried, n, m.h.nTriedBuckets, m.h.nBucketSize);
    code := 0;
  }

  method CheckTried(m: AddrMan, setTried: set<int>) returns (code: int, rest: set<int>)
    requires m.Shape() && setTried == TriedIds(m.Model())
    ensures code == 0 <==> TriedPasses(m.Model())
    ensures code == 0 ==> rest == TriedIds(m.Model()) - m.Model().vvTried.Values
  {
    ghost var s := m.Model();
    rest := setTried;
    InTable(m.vvTried);
    TableOver(s.vvTried, m.h.nTriedBuckets, m.h.nBucketSize);
    for n := 0 to m.h.nTriedBuckets
      invariant TriedSoFar(s, n, 0, rest)
    {
      code, rest := CheckTriedBucket(m, n, rest);
      if code != 0 {
        return;
      }
    }
    code := 0;
  }

  // ----- the new table -----

  ghost predicate NewPasses(s: State)
    requires s.h.Ok()
  {
    && (forall sl {:trigger NewSlotOk(s, sl)} | sl in s.vvNew :: NewSlotOk(s, sl))
    && (forall id | id in NewIds(s) :: |SlotsOf(s.vvNew, id)| <= s.mapInfo[id].nRefCount)
  }

  ghost predicate CountsExact(s: State) {
    forall id | id in NewIds(s) :: |SlotsOf(s.vvNew, id)| == s.mapInfo[id].nRefCount
  }

  /** What is left of an entry's count once the slots in `t` are taken off; an entry with nothing left is gone. */
  ghost predicate LeftAt(s: State, t: Table, left: map<int, int>, id: int) {
    if id !in NewIds(s) then id !in left
    else
      var n := s.mapInfo[id].nRefCount - |SlotsOf(t, id)|;
      n >= 0 && Get(left, id) == if n == 0 then None else Some(n)
  }

  ghost predicate NewSoFar(s: State, b: nat, i: nat, left: map<int, int>)
    requires s.h.Ok()
  {
    && (forall sl {:trigger NewSlotOk(s, sl)} | sl in s.vvNew && Precedes(sl, b, i) :: NewSlotOk(s, sl))
    && (forall id {:trigger LeftAt(s, Before(s.vvNew, b, i), left, id)} :: LeftAt(s, Before(s.vvNew, b, i), left, id))
  }

  lemma OneTooMany(s: State, b: nat, i: nat, left: map<int, int>)
    requires s.h.Ok() && NewSoFar(s, b, i, left) && Slot(b, i) in s.vvNew && s.vvNew[Slot(b, i)] !in left
    ensures !NewPasses(s)
  {
    var sl, t, t1 := Slot(b, i), Before(s.vvNew, b, i), Before(s.vvNew, b, i + 1);
    var id := s.vvNew[sl];
    assert LeftAt(s, t, left, id);
    assert id !in NewIds(s) ==> !NewSlotOk(s, sl);
    BeforeNext(s.vvNew, b, i);
    SlotsWith(t, sl, id, id);
    assert SlotsOf(t1, id) <= SlotsOf(s.vvNew, id);
    SubsetSize(SlotsOf(t1, id), SlotsOf(s.vvNew, id));
  }

  function TakeOne(left: map<int, int>, id: int): map<int, int>
    requires id in left
  {
    if left[id] == 1 then left - {id} else left[id := left[id] - 1]
  }

  lemma NextNewSlot(s: State, b: nat, i: nat, left: map<int, int>)
    requires s.h.Ok() && NewSoFar(s, b, i, left)
    ensures Slot(b, i) !in s.vvNew ==> NewSoFar(s, b, i + 1, left)
    ensures
      Slot(b, i) in s.vvNew && NewSlotOk(s, Slot(b, i)) && s.vvNew[Slot(b, i)] in left ==>
      NewSoFar(s, b, i + 1, TakeOne(left, s.vvNew[Slot(b, i)]))
  {
    var sl, t, t1 := Slot(b, i), Before(s.vvNew, b, i), Before(s.vvNew, b, i + 1);
    BeforeNext(s.vvNew, b, i);
    forall x ensures Precedes(x, b, i + 1) <==> Precedes(x, b, i) || x == sl {
      PrecedesNext(x, b, i);
    }
    if sl !in s.vvNew {
      forall k ensures LeftAt(s, t1, left, k) {
        assert LeftAt(s, t, left, k);
      }
    } else if s.vvNew[sl] in left {
      var id := s.vvNew[sl];
      forall k ensures LeftAt(s, t1, TakeOne(left, id), k) {
        assert LeftAt(s, t, left, k);
        SlotsWith(t, sl, id, k);
      }
    }
  }

  method VisitNew(m: AddrMan, n: nat, i: nat, mapNew: map<int, int>) returns (code: int, left: map<int, int>)
    requires m.Shape() && n < m.h.nNewBuckets && i < m.h.nBucketSize && NewSoFar(m.Model(), n, i, mapNew)
    ensures code == 0 ==> NewSoFar(m.Model(), n, i + 1, left)
    ensures code != 0 ==> !NewPasses(m.Model())
  {
    ghost var s := m.Model();
    left := mapNew;
    TableAt(m.vvNew, n, i);
    NextNewSlot(s, n, i, left);
    if m.vvNew[n, i] != -1 {
      var id := m.vvNew[n, i];
      if id !in left {
        OneTooMany(s, n, i, left);
        return -12, left;
      }
      assert LeftAt(s, Before(s.vvNew, n, i), left, id);
      if m.h.Position(m.mapInfo[id].stats.service, true, n) != i {
        assert !NewSlotOk(s, Slot(n, i));
        return -19, left;
      }
      left := left[id := left[id] - 1];
      if left[id] == 0 {
        left := left - {id};
      }
      assert left == TakeOne(mapNew, id);
    }
    code := 0;
  }

  method CheckNewBucket(m: AddrMan, n: nat, mapNew: map<int, int>) returns (code: int, left: map<int, int>)
    requires m.Shape() && n < m.h.nNewBuckets && NewSoFar(m.Model(), n, 0, mapNew)
    ensures code == 0 ==> NewSoFar(m.Model(), n + 1, 0, left)
    ensures code != 0 ==> !NewPasses(m.Model())
  {
    ghost var s := m.Model();
    left := mapNew;
    for i := 0 to m.h.nBucketSize
      invariant NewSoFar(s, n, i, left)
    {
      code, left := VisitNew(m, n, i, left);
      if code != 0 {
        return;
      }
    }
    InTable(m.vvNew);
    NewRowOver(s, n, left);
    code := 0;
  }

  lemma NewRowOver(s: State, b: nat, left: map<int, int>)
    requires s.h.Ok() && Within(s.vvNew, s.h.nNewBuckets, s.h.nBucketSize) && NewSoFar(s, b, s.h.nBucketSize, left)
    ensures NewSoFar(s, b + 1, 0, left)
  {
    RowOver(s.vvNew, b, s.h.nNewBuckets, s.h.nBucketSize);
    var t := Before(s.vvNew, b + 1, 0);
    forall id ensures LeftAt(s, t, left, id) {
      assert LeftAt(s, Before(s.vvNew, b, s.h.nBucketSize), left, id);
    }
  }

  lemma NewStart(s: State, left: map<int, int>)
    requires s.h.Ok() && EntriesPass(s) && left == CountsOf(s, s.mapInfo.Keys)
    ensures NewSoFar(s, 0, 0, left)
  {
    forall id ensures LeftAt(s, Before(s.vvNew, 0, 0), left, id) {
      assert SlotsOf(Before(s.vvNew, 0, 0), id) == {};
    }
  }

  lemma NewEnd(s: State, left: map<int, int>)
    requires s.h.Ok() && Within(s.vvNew, s.h.nNewBuckets, s.h.nBucketSize) && NewSoFar(s, s.h.nNewBuckets, 0, left)
    ensures NewPasses(s) && (left == map[] <==> CountsExact(s))
  {
    var n := s.h.nNewBuckets;
    TableOver(s.vvNew, n, s.h.nBucketSize);
    forall id ensures id in NewIds(s) ==> |SlotsOf(s.vvNew, id)| <= s.mapInfo[id].nRefCount
              ensures id !in left <==> (id in NewIds(s) ==> |SlotsOf(s.vvNew, id)| == s.mapInfo[id].nRefCount) {
      assert LeftAt(s, Before(s.vvNew, n, 0), left, id);
    }
    if CountsExact(s) {
      forall id: int ensures Get(left, id) == Get(map[], id) {
        assert id !in left;
      }
      SameLookup(left, map[]);
    }
  }

  method CheckNew(m: AddrMan, mapNew: map<int, int>) returns (code: int, left: map<int, int>)
    requires m.Shape() && EntriesPass(m.Model()) && mapNew == CountsOf(m.Model(), m.mapInfo.Keys)
    ensures code == 0 <==> NewPasses(m.Model())
    ensures code == 0 ==> (left == map[] <==> CountsExact(m.Model()))
  {
    ghost var s := m.Model();
    left := mapNew;
    NewStart(s, left);
    for n := 0 to m.h.nNewBuckets
      invariant NewSoFar(s, n, 0, left)
    {
      code, left := CheckNewBucket(m, n, left);
      if code != 0 {
        return;
      }
    }
    InTable(m.vvNew);
    NewEnd(s, left);
    code := 0;
  }

  // ----- the whole check -----

  ghost predicate Checked(s: State)
    requires s.h.Ok()
  {
    && |s.vRandom| == s.nTried + s.nNew && s.nTried == |TriedIds(s)| && s.nNew == |NewIds(s)|
    && EntriesPass(s) && TriedPasses(s) && NewPasses(s)
    && TriedIds(s) <= s.vvTried.Values && CountsExact(s)
  }

  lemma AllMet<T>(xs: set<T>, ys: set<T>, rest: set<T>)
    requires rest == xs - ys
    ensures |rest| == 0 <==> xs <= ys
  {
    if rest == {} {
      forall x | x in xs ensures x in ys {
        assert x !in rest;
      }
    } else {
      var x := Pick(rest);
    }
  }

  /** `keyIsNull`: whether the random key was never drawn. */
  method Check_(m: AddrMan, keyIsNull: bool) returns (code: int)
    requires m.Shape()
    ensures code == 0 <==> Checked(m.Model()) && !keyIsNull
  {
    ghost var s := m.Model();
    if |m.vRandom| != m.nTried + m.nNew {
      return -7;
    }
    var setTried, mapNew;
    code, setTried, mapNew := CheckEntries(m);
    if code != 0 {
      return;
    }
    assert mapNew.Keys == NewIds(s);
    if |setTried| != m.nTried {
      return -9;
    }
    if |mapNew| != m.nNew {
      return -10;
    }
    code, setTried := CheckTried(m, setTried);
    if code != 0 {
      return;
    }
    code, mapNew := CheckNew(m, mapNew);
    if code != 0 {
      return;
    }
    AllMet(TriedIds(s), s.vvTried.Values, setTried);
    if |setTried| != 0 {
      return -13;
    }
    if |mapNew| != 0 {
      return -15;
    }
    if keyIsNull {
      return -16;
    }
    return 0;
  }

  // ----- what the check means -----

  /** What the check does not look at: the range of the ids, and addresses that lead nowhere. */
  ghost predicate Tidy(s: State) {
    && s.nIdCount >= 0
    && (forall id | id in s.mapInfo :: 0 <= id < s.nIdCount && s.mapInfo[id].Ip() in s.mapAddr)
    && (forall ip {:trigger IpOk(s, ip)} | ip in s.mapAddr :: IpOk(s, ip))
  }

  lemma {:induction false} SameSize<T>(x: set<T>, y: set<T>)
    requires x <= y && |x| == |y|
    ensures x == y
  {
    if x != {} {
      var e :| e in x;
      SameSize(x - {e}, y - {e});
    }
  }

  function UpTo(n: nat): set<int> {
    if n == 0 then {} else UpTo(n - 1) + {n - 1}
  }

  lemma {:induction false} UpToMeans(n: nat)
    ensures |UpTo(n)| == n && forall i :: i in UpTo(n) <==> 0 <= i < n
  {
    if n > 0 {
      UpToMeans(n - 1);
    }
  }

  /** As many positions as entries, and every entry at its own: so every position holds an entry that is there. */
  lemma EveryPosition(s: State, i: int)
    requires EntriesPass(s) && |s.vRandom| == |s.mapInfo| && 0 <= i < |s.vRandom|
    ensures PosOk(s, i)
  {
    var pos := map id | id in s.mapInfo :: s.mapInfo[id].nRandomPos;
    var at := map p | p in pos.Values && 0 <= p < |s.vRandom| :: s.vRandom[p];
    forall id | id in pos ensures pos[id] in at && at[pos[id]] == id {
      assert EntryPasses(s, id);
    }
    Inverse(pos, at) by {
      forall p | p in at ensures at[p] in pos && pos[at[p]] == p {
        var id :| id in pos && pos[id] == p;
      }
    }
    UpToMeans(|s.vRandom|);
    assert pos.Keys == s.mapInfo.Keys;
    SameSize(at.Keys, UpTo(|s.vRandom|));
    assert i in at.Keys;
  }

  lemma CheckedEntry(s: State, id: int)
    requires s.h.Ok() && Checked(s) && Tidy(s) && id in s.mapInfo
    ensures IdOk(s, id)
  {
    assert EntryPasses(s, id);
    if s.mapInfo[id].fInTried {
      assert id in TriedIds(s);
      var sl :| sl in s.vvTried && s.vvTried[sl] == id;
      assert TriedSlotOk(s, sl);
    } else {
      assert id in NewIds(s);
    }
  }

  lemma Total(s: State)
    ensures |s.mapInfo| == |NewIds(s)| + |TriedIds(s)|
  {
    assert s.mapInfo.Keys == NewIds(s) + TriedIds(s) && NewIds(s) !! TriedIds(s);
  }

  lemma CheckedIsWired(s: State)
    requires s.h.Ok() && Checked(s) && Tidy(s)
    ensures Wired(s)
  {
    forall id | id in s.mapInfo ensures IdOk(s, id) {
      CheckedEntry(s, id);
    }
    Total(s);
    forall i | 0 <= i < |s.vRandom| ensures PosOk(s, i) {
      EveryPosition(s, i);
    }
  }

  /** A manager that passes is consistent, up to what the check does not look at. */
  lemma CheckedIsConsistent(s: State)
    requires s.h.Ok() && Checked(s) && Tidy(s)
    ensures Inv(s) && TimesOk(s)
  {
    CheckedIsWired(s);
    forall id | id in s.mapInfo ensures EntryPasses(s, id) {
    }
  }

  /** A consistent manager passes: no run of the operations makes the check fail. */
  lemma ConsistentIsChecked(s: State)
    requires Inv(s) && TimesOk(s)
    ensures Checked(s) && Tidy(s)
  {
    SizeIsExact(s);
    forall id | id in s.mapInfo ensures IdOk(s, id) && EntryPasses(s, id) {
      assert IdOk(s, id);
    }
    forall id | id in TriedIds(s) ensures id in s.vvTried.Values {
      assert IdOk(s, id);
      assert s.h.TriedSlot(s.mapInfo[id].stats.service) in s.vvTried;
    }
    forall id | id in NewIds(s) ensures |SlotsOf(s.vvNew, id)| == s.mapInfo[id].nRefCount {
      assert IdOk(s, id);
    }
  }

  /** The check finds nothing after any run from an empty manager, once the key is drawn and the clock is past zero. */
  method CheckedRun(h: Hashing, ops: seq<Op>) returns (code: int)
    requires h.Ok() && Clocked(ops)
    ensures code == 0
  {
    var m := RunAll(h, ops);
    ConsistentIsChecked(m.Model());
    code := Check_(m, false);
  }
}
