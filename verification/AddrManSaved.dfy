/** Writing the address manager (src/addrman.h:296-346) and reading it back: nothing is lost but the times that are not stored. */
module AddrManSaved {
  import opened Arith
  import opened Options
  import opened AddrManModel
  import opened AddrManMoves
  import opened AddrManList
  import opened AddrManStore

  /** Whether an entry belongs in the list of new entries, or of tried entries. */
  predicate Chosen(s: State, id: int, tried: bool) {
    id in s.mapInfo && if tried then s.mapInfo[id].fInTried else s.mapInfo[id].nRefCount != 0
  }

  /** The chosen ids below `n`, in order. */
  function IdsBelow(s: State, n: nat, tried: bool): (ids: seq<int>)
    ensures forall k | 0 <= k < |ids| :: ids[k] < n && Chosen(s, ids[k], tried)
  {
    if n == 0 then [] else IdsBelow(s, n - 1, tried) + if Chosen(s, n - 1, tried) then [n - 1] else []
  }

  function Entries(s: State, ids: seq<int>): (ps: seq<Persisted>)
    requires forall k | 0 <= k < |ids| :: ids[k] in s.mapInfo
    ensures |ps| == |ids| && forall k | 0 <= k < |ids| :: ps[k] == Persist(s.mapInfo[ids[k]].stats)
  {
    seq(|ids|, k requires 0 <= k < |ids| => Persist(s.mapInfo[ids[k]].stats))
  }

  /** The index an entry is written under. */
  function Rank(s: State, id: int): nat {
    if id < 0 then 0 else |IdsBelow(s, id, false)|
  }

  /** The first `i` places of a bucket. */
  function Row(s: State, b: nat, i: nat): seq<int> {
    if i == 0 then []
    else Row(s, b, i - 1) + if Slot(b, i - 1) in s.vvNew then [Rank(s, s.vvNew[Slot(b, i - 1)])] else []
  }

  function Listed(s: State, tried: bool): seq<Persisted> {
    Entries(s, IdsBelow(s, if s.nIdCount < 0 then 0 else s.nIdCount, tried))
  }

  function Saved(s: State): Image {
    Image(1, 32, Flip(s.h.nNewBuckets), Listed(s, false), Listed(s, true), seq(s.h.nNewBuckets, b requires 0 <= b => Row(s, b, s.h.nBucketSize)))
  }

  // ----- the lists -----

  lemma {:induction false} IdsIncrease(s: State, n: nat, tried: bool, j: nat, k: nat)
    requires j < k < |IdsBelow(s, n, tried)|
    ensures IdsBelow(s, n, tried)[j] < IdsBelow(s, n, tried)[k]
  {
    if k < |IdsBelow(s, n - 1, tried)| {
      IdsIncrease(s, n - 1, tried, j, k);
    }
  }

  lemma {:induction false} IdListed(s: State, n: nat, tried: bool, id: nat)
    requires id < n && Chosen(s, id, tried)
    ensures |IdsBelow(s, id, tried)| < |IdsBelow(s, n, tried)| && IdsBelow(s, n, tried)[|IdsBelow(s, id, tried)|] == id
  {
    if id < n - 1 {
      IdListed(s, n - 1, tried, id);
    }
  }

  lemma ListedCount(s: State)
    requires Inv(s)
    ensures |Listed(s, false)| == s.nNew && |Listed(s, true)| == s.nTried
  {
    forall tried: bool ensures |Listed(s, tried)| == if tried then s.nTried else s.nNew {
      var ids := IdsBelow(s, s.nIdCount, tried);
      forall j, k | 0 <= j < k < |ids| ensures ids[j] != ids[k] {
        IdsIncrease(s, s.nIdCount, tried, j, k);
      }
      DistinctCount(ids);
      forall id ensures id in Elements(ids) <==> id in if tried then TriedIds(s) else NewIds(s) {
        ChosenMeans(s, id);
        if Chosen(s, id, tried) {
          IdListed(s, s.nIdCount, tried, id);
        }
      }
      assert Elements(ids) == if tried then TriedIds(s) else NewIds(s);
    }
  }

  lemma ChosenMeans(s: State, id: int)
    requires Inv(s)
    ensures Chosen(s, id, false) <==> id in NewIds(s)
    ensures Chosen(s, id, true) <==> id in TriedIds(s)
    ensures id in s.mapInfo ==> 0 <= id < s.nIdCount
  {
    if id in s.mapInfo {
      assert IdOk(s, id);
    }
  }

  lemma {:induction false} FewerValues<K, V>(t: map<K, V>)
    ensures |t.Values| <= |t|
  {
    if t != map[] {
      var sl :| sl in t;
      var rest := t - {sl};
      FewerValues(rest);
      forall v ensures v in t.Values <==> v in rest.Values + {t[sl]} {
        if v in t.Values {
          var x :| x in t && t[x] == v;
          assert x != sl ==> x in rest && rest[x] == v;
        }
      }
      assert t.Values == rest.Values + {t[sl]};
      assert t.Keys == rest.Keys + {sl};
    }
  }

  function Bucket(b: nat, size: nat): set<Slot> { set i | 0 <= i < size :: Slot(b, i) }

  function Grid(buckets: nat, size: nat): set<Slot> {
    if buckets == 0 then {} else Grid(buckets - 1, size) + Bucket(buckets - 1, size)
  }

  lemma {:induction false} BucketSize(b: nat, size: nat)
    ensures |Bucket(b, size)| == size
  {
    if size > 0 {
      BucketSize(b, size - 1);
      assert Bucket(b, size) == Bucket(b, size - 1) + {Slot(b, size - 1)};
    }
  }

  lemma {:induction false} GridHas(buckets: nat, size: nat, sl: Slot)
    ensures sl in Grid(buckets, size) <==> sl.bucket < buckets && sl.pos < size
  {
    if buckets > 0 {
      GridHas(buckets - 1, size, sl);
      assert sl in Bucket(buckets - 1, size) <==> sl.bucket == buckets - 1 && sl.pos < size;
    }
  }

  lemma DisjointSize<T>(x: set<T>, y: set<T>)
    requires x !! y
    ensures |x + y| == |x| + |y|
  {
  }

  lemma {:induction false} GridSize(buckets: nat, size: nat)
    ensures |Grid(buckets, size)| == buckets * size
  {
    if buckets > 0 {
      var k := buckets - 1;
      var below, last := Grid(k, size), Bucket(k, size);
      GridSize(k, size);
      BucketSize(k, size);
      forall sl | sl in below ensures sl !in last {
        GridHas(k, size, sl);
      }
      DisjointSize(below, last);
      assert (k + 1) * size == k * size + size;
    }
  }

  /** A table holds at most as many ids as it has places. */
  lemma TableCapacity(t: Table, buckets: nat, size: nat, ids: set<int>)
    requires forall sl | sl in t :: sl.bucket < buckets && sl.pos < size
    requires ids <= t.Values
    ensures |ids| <= buckets * size
  {
    forall sl | sl in t ensures sl in Grid(buckets, size) {
      GridHas(buckets, size, sl);
    }
    assert t.Keys <= Grid(buckets, size);
    SubsetSize(t.Keys, Grid(buckets, size));
    GridSize(buckets, size);
    FewerValues(t);
    SubsetSize(ids, t.Values);
  }

  lemma NewCapacity(s: State)
    requires Inv(s)
    ensures s.nNew <= s.h.nNewBuckets * s.h.nBucketSize
  {
    forall sl | sl in s.vvNew ensures sl.bucket < s.h.nNewBuckets && sl.pos < s.h.nBucketSize {
      assert NewSlotOk(s, sl);
    }
    forall id | id in NewIds(s) ensures id in s.vvNew.Values {
      assert IdOk(s, id);
      assert SlotsOf(s.vvNew, id) != {};
      var sl :| sl in SlotsOf(s.vvNew, id);
    }
    TableCapacity(s.vvNew, s.h.nNewBuckets, s.h.nBucketSize, NewIds(s));
  }

  lemma TriedCapacity(s: State)
    requires Inv(s)
    ensures s.nTried <= s.h.nTriedBuckets * s.h.nBucketSize
  {
    forall sl | sl in s.vvTried ensures sl.bucket < s.h.nTriedBuckets && sl.pos < s.h.nBucketSize {
      assert TriedSlotOk(s, sl);
    }
    forall id | id in TriedIds(s) ensures id in s.vvTried.Values {
      assert IdOk(s, id);
      assert s.h.TriedSlot(s.mapInfo[id].stats.service) in s.vvTried;
    }
    TableCapacity(s.vvTried, s.h.nTriedBuckets, s.h.nBucketSize, TriedIds(s));
  }

  /** The counts written never make the reader throw. */
  lemma SavedIsAccepted(s: State)
    requires Inv(s)
    ensures !Throws(s.h, Saved(s)) && Usable(s.h, Saved(s))
  {
    ListedCount(s);
    NewCapacity(s);
    TriedCapacity(s);
  }

  /** Where an entry of the two lists, one after the other, comes from. */
  function Origin(s: State, k: nat): int
    requires k < |Listed(s, false)| + |Listed(s, true)|
  {
    var n := if s.nIdCount < 0 then 0 else s.nIdCount;
    if k < |Listed(s, false)| then IdsBelow(s, n, false)[k] else IdsBelow(s, n, true)[k - |Listed(s, false)|]
  }

  lemma OriginMeans(s: State, k: nat)
    requires Inv(s) && k < |Listed(s, false)| + |Listed(s, true)|
    ensures Origin(s, k) in s.mapInfo && (s.mapInfo[Origin(s, k)].fInTried <==> k >= |Listed(s, false)|)
    ensures (Listed(s, false) + Listed(s, true))[k] == Persist(s.mapInfo[Origin(s, k)].stats)
  {
    ChosenMeans(s, Origin(s, k));
  }

  lemma SavedIsDistinct(s: State)
    requires Inv(s)
    ensures DistinctIps(Listed(s, false) + Listed(s, true))
  {
    var news, trieds := Listed(s, false), Listed(s, true);
    var all := news + trieds;
    forall j, k | 0 <= j < k < |all| ensures all[j].service.ip != all[k].service.ip {
      OriginMeans(s, j);
      OriginMeans(s, k);
      if k < |news| {
        IdsIncrease(s, s.nIdCount, false, j, k);
      } else if j >= |news| {
        IdsIncrease(s, s.nIdCount, true, j - |news|, k - |news|);
      }
      assert IdOk(s, Origin(s, j));
      assert IdOk(s, Origin(s, k));
    }
  }

  // ----- reading the lists -----

  ghost predicate NoneHas(ps: seq<Persisted>, n: nat, ip: Ip)
    requires n <= |ps|
  {
    forall k | 0 <= k < n :: ps[k].service.ip != ip
  }

  lemma {:induction false} NewsTables(h: Hashing, a: Abs, ps: seq<Persisted>, n: nat)
    requires h.Ok() && n <= |ps|
    ensures AbsLoadNews(h, a, ps, n, true) == a.(infos := AbsLoadNews(h, a, ps, n, true).infos)
  {
    if n > 0 {
      NewsTables(h, a, ps, n - 1);
    }
  }

  lemma {:induction false} NewsOther(h: Hashing, a: Abs, ps: seq<Persisted>, n: nat, ip: Ip)
    requires h.Ok() && n <= |ps| && NoneHas(ps, n, ip)
    ensures Get(AbsLoadNews(h, a, ps, n, true).infos, ip) == Get(a.infos, ip)
  {
    if n > 0 {
      NewsOther(h, a, ps, n - 1, ip);
    }
  }

  lemma {:induction false} NewsKnown(h: Hashing, a: Abs, ps: seq<Persisted>, n: nat, k: nat)
    requires h.Ok() && k < n <= |ps| && DistinctIps(ps)
    ensures Get(AbsLoadNews(h, a, ps, n, true).infos, ps[k].service.ip) == Some(Revive(ps[k]))
  {
    if k < n - 1 {
      NewsKnown(h, a, ps, n - 1, k);
      assert ps[k].service.ip != ps[n - 1].service.ip;
    }
  }

  /** No two of these entries want the same place in the tried table. */
  ghost predicate DistinctPlaces(h: Hashing, ps: seq<Persisted>)
    requires h.Ok()
  {
    forall j, k | 0 <= j < k < |ps| :: h.TriedSlot(ps[j].service) != h.TriedSlot(ps[k].service)
  }

  lemma {:induction false} TriedsTables(h: Hashing, a: Abs, ps: seq<Persisted>, n: nat)
    requires h.Ok() && n <= |ps|
    ensures
      var b := AbsLoadTrieds(h, a, ps, n);
      b == a.(infos := b.infos, inTried := b.inTried)
  {
    if n > 0 {
      TriedsTables(h, a, ps, n - 1);
    }
  }

  lemma {:induction false} TriedsOther(h: Hashing, a: Abs, ps: seq<Persisted>, n: nat, ip: Ip)
    requires h.Ok() && n <= |ps| && NoneHas(ps, n, ip)
    ensures Get(AbsLoadTrieds(h, a, ps, n).infos, ip) == Get(a.infos, ip)
  {
    if n > 0 {
      TriedsOther(h, a, ps, n - 1, ip);
    }
  }

  lemma {:induction false} TriedsFree(h: Hashing, a: Abs, ps: seq<Persisted>, n: nat, sl: Slot)
    requires h.Ok() && n <= |ps| && forall k | 0 <= k < n :: h.TriedSlot(ps[k].service) != sl
    ensures Get(AbsLoadTrieds(h, a, ps, n).inTried, sl) == Get(a.inTried, sl)
  {
    if n > 0 {
      TriedsFree(h, a, ps, n - 1, sl);
    }
  }

  lemma {:induction false} TriedsKnown(h: Hashing, a: Abs, ps: seq<Persisted>, n: nat, k: nat, p: Persisted)
    requires h.Ok() && k < n <= |ps| && DistinctIps(ps) && DistinctPlaces(h, ps) && a.inTried == map[] && p == ps[k]
    ensures
      var b := AbsLoadTrieds(h, a, ps, n);
      Get(b.infos, p.service.ip) == Some(Revive(p)) && Get(b.inTried, h.TriedSlot(p.service)) == Some(p.service.ip)
  {
    if k < n - 1 {
      TriedsKnown(h, a, ps, n - 1, k, p);
      assert p.service.ip != ps[n - 1].service.ip;
    } else {
      TriedsFree(h, a, ps, k, h.TriedSlot(p.service));
    }
  }

  // ----- reading back what was written -----

  /** The times of the last attempts are not stored. */
  function Forgotten(infos: map<Ip, Stats>): map<Ip, Stats> {
    map ip | ip in infos :: infos[ip].(nLastTry := 0, nLastCountAttempt := 0)
  }

  function Forget(a: Abs): Abs {
    a.(infos := Forgotten(a.infos), nLastGood := 1)
  }

  /** What reading both lists gives. */
  ghost function FromLists(s: State): Abs
    requires s.h.Ok()
  {
    AbsLoadTrieds(s.h, AbsLoadNews(s.h, NOTHING, Listed(s, false), |Listed(s, false)|, true), Listed(s, true), |Listed(s, true)|)
  }

  lemma FoundInList(s: State, id: int, tried: bool)
    requires Inv(s) && Chosen(s, id, tried)
    ensures
      var k := if id < 0 then 0 else |IdsBelow(s, id, tried)|;
      k < |Listed(s, tried)| && Listed(s, tried)[k] == Persist(s.mapInfo[id].stats)
  {
    ChosenMeans(s, id);
    IdListed(s, s.nIdCount, tried, id);
  }

  lemma OnceInList(s: State, id: int, tried: bool)
    requires Inv(s) && id in s.mapInfo && s.mapInfo[id].fInTried != tried
    ensures NoneHas(Listed(s, tried), |Listed(s, tried)|, s.mapInfo[id].Ip())
  {
    var ps, ids := Listed(s, tried), IdsBelow(s, s.nIdCount, tried);
    assert IdOk(s, id);
    forall k | 0 <= k < |ps| ensures ps[k].service.ip != s.mapInfo[id].Ip() {
      ChosenMeans(s, ids[k]);
      assert IdOk(s, ids[k]);
    }
  }

  lemma NeverInList(s: State, a: Abs, ip: Ip, tried: bool)
    requires Inv(s) && Shows(s, a) && ip !in a.infos
    ensures NoneHas(Listed(s, tried), |Listed(s, tried)|, ip)
  {
    var ps, ids := Listed(s, tried), IdsBelow(s, s.nIdCount, tried);
    NotListed(s, a, ip);
    forall k | 0 <= k < |ps| ensures ps[k].service.ip != ip {
      ChosenMeans(s, ids[k]);
      assert IdOk(s, ids[k]);
    }
  }

  lemma ListsAreDistinct(s: State)
    requires Inv(s)
    ensures DistinctIps(Listed(s, false)) && DistinctIps(Listed(s, true)) && DistinctPlaces(s.h, Listed(s, true))
  {
    SavedIsDistinct(s);
    var news, trieds, ids := Listed(s, false), Listed(s, true), IdsBelow(s, s.nIdCount, true);
    var all := news + trieds;
    forall j, k | 0 <= j < k < |news| ensures news[j].service.ip != news[k].service.ip {
      assert all[j] == news[j] && all[k] == news[k];
    }
    forall j, k | 0 <= j < k < |trieds| ensures trieds[j].service.ip != trieds[k].service.ip {
      assert all[|news| + j] == trieds[j] && all[|news| + k] == trieds[k];
    }
    forall j, k | 0 <= j < k < |trieds| ensures s.h.TriedSlot(trieds[j].service) != s.h.TriedSlot(trieds[k].service) {
      IdsIncrease(s, s.nIdCount, true, j, k);
      assert IdOk(s, ids[j]);
      assert IdOk(s, ids[k]);
    }
  }

  lemma ListedInfo(s: State, a: Abs, ip: Ip)
    requires Inv(s) && Shows(s, a)
    ensures Get(FromLists(s).infos, ip) == Get(Forgotten(a.infos), ip)
  {
    var news, trieds := Listed(s, false), Listed(s, true);
    var a1 := AbsLoadNews(s.h, NOTHING, news, |news|, true);
    ListsAreDistinct(s);
    NewsTables(s.h, NOTHING, news, |news|);
    assert StatsAt(s, ip) == Get(a.infos, ip);
    if ip !in a.infos {
      NeverInList(s, a, ip, false);
      NeverInList(s, a, ip, true);
      NewsOther(s.h, NOTHING, news, |news|, ip);
      TriedsOther(s.h, a1, trieds, |trieds|, ip);
    } else {
      var id := s.mapAddr[ip];
      assert IpOk(s, ip);
      ChosenMeans(s, id);
      if s.mapInfo[id].fInTried {
        FoundInList(s, id, true);
        TriedsKnown(s.h, a1, trieds, |trieds|, |IdsBelow(s, id, true)|, Persist(s.mapInfo[id].stats));
      } else {
        FoundInList(s, id, false);
        OnceInList(s, id, true);
        NewsKnown(s.h, NOTHING, news, |news|, Rank(s, id));
        TriedsOther(s.h, a1, trieds, |trieds|, ip);
      }
    }
  }

  lemma ListedPlace(s: State, a: Abs, sl: Slot)
    requires Inv(s) && Shows(s, a)
    ensures Get(FromLists(s).inTried, sl) == Get(a.inTried, sl)
  {
    var news, trieds, ids := Listed(s, false), Listed(s, true), IdsBelow(s, s.nIdCount, true);
    var a1 := AbsLoadNews(s.h, NOTHING, news, |news|, true);
    ListsAreDistinct(s);
    NewsTables(s.h, NOTHING, news, |news|);
    assert IpIn(s, s.vvTried, sl) == Get(a.inTried, sl);
    if sl in s.vvTried {
      var id := s.vvTried[sl];
      assert TriedSlotOk(s, sl);
      ChosenMeans(s, id);
      FoundInList(s, id, true);
      TriedsKnown(s.h, a1, trieds, |trieds|, |IdsBelow(s, id, true)|, Persist(s.mapInfo[id].stats));
    } else {
      forall k | 0 <= k < |trieds| ensures s.h.TriedSlot(trieds[k].service) != sl {
        assert IdOk(s, ids[k]);
      }
      TriedsFree(s.h, a1, trieds, |trieds|, sl);
    }
  }

  lemma ListsRead(s: State, a: Abs)
    requires Inv(s) && Shows(s, a)
    ensures FromLists(s) == Forget(a).(inNew := map[])
  {
    var news, trieds := Listed(s, false), Listed(s, true);
    var b := FromLists(s);
    NewsTables(s.h, NOTHING, news, |news|);
    TriedsTables(s.h, AbsLoadNews(s.h, NOTHING, news, |news|, true), trieds, |trieds|);
    forall ip ensures Get(b.infos, ip) == Get(Forgotten(a.infos), ip) {
      ListedInfo(s, a, ip);
    }
    forall sl ensures Get(b.inTried, sl) == Get(a.inTried, sl) {
      ListedPlace(s, a, sl);
    }
    SameLookup(b.infos, Forgotten(a.infos));
    SameLookup(b.inTried, a.inTried);
  }

  // ----- reading the rows -----

  predicate Precedes(sl: Slot, b: nat, i: nat) {
    sl.bucket < b || (sl.bucket == b && sl.pos < i)
  }

  /** The places before position `i` of bucket `b`. */
  function Before<V>(m: map<Slot, V>, b: nat, i: nat): map<Slot, V> {
    map sl | sl in m && Precedes(sl, b, i) :: m[sl]
  }

  /** The lists are read, and the rows up to that place. */
  function Midway(a: Abs, b: nat, i: nat): Abs {
    Forget(a).(inNew := Before(a.inNew, b, i))
  }

  lemma {:induction false} RowPrefix(h: Hashing, a: Abs, news: seq<Persisted>, b: nat, row: seq<int>, more: seq<int>, n: nat)
    requires h.Ok() && n <= |row|
    ensures AbsLoadRow(h, a, news, b, row + more, n) == AbsLoadRow(h, a, news, b, row, n)
  {
    if n > 0 {
      RowPrefix(h, a, news, b, row, more, n - 1);
      assert (row + more)[n - 1] == row[n - 1];
    }
  }

  lemma PrecedesNext(sl: Slot, b: nat, i: nat)
    ensures Precedes(sl, b, i + 1) <==> Precedes(sl, b, i) || sl == Slot(b, i)
  {
    assert sl == Slot(sl.bucket, sl.pos);
  }

  lemma BeforeNext<V>(m: map<Slot, V>, b: nat, i: nat)
    ensures Before(m, b, i + 1) == if Slot(b, i) in m then Before(m, b, i)[Slot(b, i) := m[Slot(b, i)]] else Before(m, b, i)
  {
    forall sl ensures Precedes(sl, b, i + 1) <==> Precedes(sl, b, i) || sl == Slot(b, i) {
      PrecedesNext(sl, b, i);
    }
  }

  /** The entry has fewer places so far than in all, so it may take the next one. */
  lemma RoomForOne(a: Abs, b: nat, i: nat, ip: Ip)
    requires Slot(b, i) in a.inNew && a.inNew[Slot(b, i)] == ip && |AbsSlots(a, ip)| <= BUCKETS_PER_ADDRESS
    ensures |AbsSlots(Midway(a, b, i), ip)| < BUCKETS_PER_ADDRESS && Slot(b, i) !in Midway(a, b, i).inNew
  {
    var some, every := AbsSlots(Midway(a, b, i), ip), AbsSlots(a, ip);
    assert Slot(b, i) in every && Slot(b, i) !in some;
    assert some <= every - {Slot(b, i)};
    SubsetSize(some, every - {Slot(b, i)});
  }

  lemma NextPlace(s: State, a: Abs, b: nat, i: nat)
    requires Inv(s) && Shows(s, a) && Slot(b, i) in s.vvNew
    ensures AbsLoadIndex(s.h, Midway(a, b, i), Listed(s, false), b, Rank(s, s.vvNew[Slot(b, i)])) == Midway(a, b, i + 1)
  {
    var sl, id := Slot(b, i), s.vvNew[Slot(b, i)];
    assert NewSlotOk(s, sl);
    assert IdOk(s, id);
    assert IpIn(s, s.vvNew, sl) == Get(a.inNew, sl);
    ChosenMeans(s, id);
    FoundInList(s, id, false);
    ReadEntry(s, id, a);
    RoomForOne(a, b, i, s.mapInfo[id].Ip());
    BeforeNext(a.inNew, b, i);
  }

  lemma RowSnoc(h: Hashing, a: Abs, news: seq<Persisted>, b: nat, row: seq<int>, x: int, more: seq<int>)
    requires h.Ok() && more == row + [x]
    ensures AbsLoadRow(h, a, news, b, more, |more|) == AbsLoadIndex(h, AbsLoadRow(h, a, news, b, row, |row|), news, b, x)
  {
    RowPrefix(h, a, news, b, row, [x], |row|);
  }

  lemma {:induction false} RowRead(s: State, a: Abs, b: nat, i: nat, row: seq<int>, start: Abs)
    requires Inv(s) && Shows(s, a) && row == Row(s, b, i) && start == Midway(a, b, 0)
    ensures AbsLoadRow(s.h, start, Listed(s, false), b, row, |row|) == Midway(a, b, i)
  {
    if i > 0 {
      var news, k, some := Listed(s, false), i - 1, Row(s, b, i - 1);
      var sl := Slot(b, k);
      RowRead(s, a, b, k, some, start);
      if sl in s.vvNew {
        RowSnoc(s.h, start, news, b, some, Rank(s, s.vvNew[sl]), row);
        NextPlace(s, a, b, k);
      } else {
        assert row == some;
        SlotShown(s, a, sl);
        BeforeNext(a.inNew, b, k);
      }
    }
  }

  lemma RowEnds(s: State, a: Abs, b: nat)
    requires Inv(s) && Shows(s, a)
    ensures Midway(a, b, s.h.nBucketSize) == Midway(a, b + 1, 0)
  {
    forall sl | sl in a.inNew ensures sl.pos < s.h.nBucketSize {
      SlotShown(s, a, sl);
      assert NewSlotOk(s, sl);
    }
  }

  lemma {:induction false} RowsRead(s: State, a: Abs, n: nat)
    requires Inv(s) && Shows(s, a) && n <= s.h.nNewBuckets
    ensures AbsLoadRows(s.h, Midway(a, 0, 0), Listed(s, false), Saved(s).rows, n) == Midway(a, n, 0)
  {
    if n > 0 {
      RowsRead(s, a, n - 1);
      RowRead(s, a, n - 1, s.h.nBucketSize, Row(s, n - 1, s.h.nBucketSize), Midway(a, n - 1, 0));
      RowEnds(s, a, n - 1);
      assert Saved(s).rows[n - 1] == Row(s, n - 1, s.h.nBucketSize);
    }
  }

  lemma AllRead(s: State, a: Abs)
    requires Inv(s) && Shows(s, a)
    ensures AbsFilled(s.h, Saved(s)) == Forget(a)
  {
    FilledFrom(s);
    ListsRead(s, a);
    RowsRead(s, a, s.h.nNewBuckets);
    FirstAndLast(s, a);
  }

  lemma FilledFrom(s: State)
    requires s.h.Ok()
    ensures AbsFilled(s.h, Saved(s)) == AbsLoadRows(s.h, FromLists(s), Listed(s, false), Saved(s).rows, s.h.nNewBuckets)
  {
  }

  lemma FirstAndLast(s: State, a: Abs)
    requires Inv(s) && Shows(s, a)
    ensures Midway(a, 0, 0) == Forget(a).(inNew := map[]) && Midway(a, s.h.nNewBuckets, 0) == Forget(a)
  {
    var n := s.h.nNewBuckets;
    assert Before(a.inNew, 0, 0) == map[];
    forall sl | sl in a.inNew ensures Precedes(sl, n, 0) {
      SlotShown(s, a, sl);
      assert NewSlotOk(s, sl);
    }
    assert Before(a.inNew, n, 0) == a.inNew;
  }

  lemma NothingPruned(s: State, a: Abs)
    requires Inv(s) && Shows(s, a)
    ensures AbsPrune(s.h, Forget(a)) == Forget(a)
  {
    forall ip | ip in a.infos ensures AbsHeld(s.h, Forget(a), ip) {
      StaysHeld(s, a, ip);
    }
  }

  /** What is written is accepted, and reading it gives a consistent manager with the same addresses in the same places. */
  lemma RoundTrip(s: State)
    requires Inv(s)
    ensures !Throws(s.h, Saved(s)) && Inv(Loaded(s.h, Saved(s))) && Abstract(Loaded(s.h, Saved(s))) == Forget(Abstract(s))
  {
    var a, img := Abstract(s), Saved(s);
    AbstractShows(s);
    SavedIsAccepted(s);
    SavedIsDistinct(s);
    LoadedIsConsistent(s.h, img);
    AllRead(s, a);
    NothingPruned(s, a);
    ShowsIsUnique(Loaded(s.h, img), AbsLoaded(s.h, img));
  }

  // ----- the counters follow from the rest -----

  lemma Inverse<K, V>(f: map<K, V>, g: map<V, K>)
    requires forall k | k in f :: f[k] in g && g[f[k]] == k
    requires forall v | v in g :: g[v] in f && f[g[v]] == v
    ensures |f| == |g|
  {
    assert forall v :: v in f.Values <==> v in g.Keys;
    assert forall k :: k in g.Values <==> k in f.Keys;
    assert f.Values == g.Keys && g.Values == f.Keys;
    FewerValues(f);
    FewerValues(g);
  }

  lemma TriedCount(s: State)
    requires Inv(s)
    ensures s.nTried == |s.vvTried|
  {
    var places := map id | id in TriedIds(s) :: s.h.TriedSlot(s.mapInfo[id].stats.service);
    forall id | id in places ensures places[id] in s.vvTried && s.vvTried[places[id]] == id {
      assert IdOk(s, id);
    }
    forall sl | sl in s.vvTried ensures s.vvTried[sl] in places && places[s.vvTried[sl]] == sl {
      assert TriedSlotOk(s, sl);
    }
    Inverse(places, s.vvTried);
    assert places.Keys == TriedIds(s);
  }

  function IpsOf(s: State): map<int, Ip> {
    map id | id in s.mapInfo :: s.mapInfo[id].Ip()
  }

  lemma IpsInverse(s: State)
    requires Wired(s)
    ensures |IpsOf(s)| == |s.mapAddr|
  {
    var ips := IpsOf(s);
    forall id | id in ips ensures ips[id] in s.mapAddr && s.mapAddr[ips[id]] == id {
      assert IdOk(s, id);
    }
    forall ip | ip in s.mapAddr ensures s.mapAddr[ip] in ips && ips[s.mapAddr[ip]] == ip {
      assert IpOk(s, ip);
    }
    Inverse(ips, s.mapAddr);
  }

  lemma EntryCount(s: State)
    ensures |IpsOf(s)| == |NewIds(s)| + |TriedIds(s)|
  {
    assert IpsOf(s).Keys == NewIds(s) + TriedIds(s);
    DisjointSize(NewIds(s), TriedIds(s));
  }

  lemma AddressCount(s: State)
    requires Inv(s)
    ensures s.nNew + s.nTried == |s.mapAddr|
  {
    IpsInverse(s);
    EntryCount(s);
  }

  lemma CountsShown(s: State, a: Abs)
    requires Inv(s) && Shows(s, a)
    ensures s.nTried == |a.inTried| && s.nNew + s.nTried == |a.infos|
  {
    TriedCount(s);
    AddressCount(s);
    forall sl ensures sl in a.inTried.Keys <==> sl in s.vvTried.Keys {
      SlotShown(s, a, sl);
    }
    assert a.inTried.Keys == s.vvTried.Keys;
    forall ip ensures ip in a.infos.Keys <==> ip in s.mapAddr.Keys {
      assert StatsAt(s, ip) == Get(a.infos, ip);
      assert ip in s.mapAddr ==> IpOk(s, ip);
    }
    assert a.infos.Keys == s.mapAddr.Keys;
  }

  lemma CountsRestored(s: State, t: State)
    requires Inv(s) && Inv(t) && Abstract(t) == Forget(Abstract(s))
    ensures t.nNew == s.nNew && t.nTried == s.nTried
  {
    AbstractShows(s);
    AbstractShows(t);
    CountsShown(s, Abstract(s));
    CountsShown(t, Abstract(t));
    assert Forgotten(Abstract(s).infos).Keys == Abstract(s).infos.Keys;
  }
}
