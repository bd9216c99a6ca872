/**
 * `CAddrMan::Serialize`, `Unserialize` and `Clear` (src/addrman.h:296-471). The stream is an `Image`; its numbers are not
 * broken into bytes.
 */
module AddrManSerialize {
  import opened AddrManModel
  import opened AddrManMoves
  import opened AddrManStore
  import opened AddrManSaved
  import opened AddrMan

  // ----- writing -----

  /** `mapUnkIds`: the index each entry is written under. */
  ghost predicate RanksBelow(s: State, ranks: map<int, int>, n: nat) {
    forall id | id in s.mapInfo && 0 <= id < n :: id in ranks && ranks[id] == Rank(s, id)
  }

  lemma CountIsNotWrong(s: State, id: int, tried: bool)
    requires Inv(s) && Chosen(s, id, tried) && id >= 0
    ensures |IdsBelow(s, id, tried)| != if tried then s.nTried else s.nNew
  {
    ChosenMeans(s, id);
    IdListed(s, s.nIdCount, tried, id);
    ListedCount(s);
  }

  method WriteNews(m: AddrMan) returns (news: seq<Persisted>, mapUnkIds: map<int, int>)
    requires m.Shape() && Inv(m.Model())
    ensures news == Listed(m.Model(), false) && RanksBelow(m.Model(), mapUnkIds, m.nIdCount)
  {
    ghost var s := m.Model();
    var nIds := 0;
    news, mapUnkIds := [], map[];
    for id := 0 to m.nIdCount
      invariant news == Entries(s, IdsBelow(s, id, false)) && nIds == |news| && RanksBelow(s, mapUnkIds, id)
    {
      if id in m.mapInfo {
        assert IdOk(s, id);
        mapUnkIds := mapUnkIds[id := nIds];
        if m.mapInfo[id].nRefCount != 0 {
          CountIsNotWrong(s, id, false);
          assert nIds != m.nNew;
          news := news + [Persist(m.mapInfo[id].stats)];
          nIds := nIds + 1;
        }
      }
    }
  }

  method WriteTrieds(m: AddrMan) returns (trieds: seq<Persisted>)
    requires m.Shape() && Inv(m.Model())
    ensures trieds == Listed(m.Model(), true)
  {
    ghost var s := m.Model();
    var nIds := 0;
    trieds := [];
    for id := 0 to m.nIdCount
      invariant trieds == Entries(s, IdsBelow(s, id, true)) && nIds == |trieds|
    {
      if id in m.mapInfo && m.mapInfo[id].fInTried {
        CountIsNotWrong(s, id, true);
        assert nIds != m.nTried;
        trieds := trieds + [Persist(m.mapInfo[id].stats)];
        nIds := nIds + 1;
      }
    }
  }

  method WriteRow(m: AddrMan, mapUnkIds: map<int, int>, bucket: nat) returns (row: seq<int>)
    requires m.Shape() && Inv(m.Model()) && RanksBelow(m.Model(), mapUnkIds, m.nIdCount) && bucket < m.h.nNewBuckets
    ensures row == Row(m.Model(), bucket, m.h.nBucketSize)
  {
    ghost var s := m.Model();
    row := [];
    for i := 0 to m.h.nBucketSize
      invariant row == Row(s, bucket, i)
    {
      TableAt(m.vvNew, bucket, i);
      if m.vvNew[bucket, i] != -1 {
        assert NewSlotOk(s, Slot(bucket, i));
        assert IdOk(s, m.vvNew[bucket, i]);
        var nIndex := mapUnkIds[m.vvNew[bucket, i]];
        row := row + [nIndex];
      }
    }
  }

  method Serialize(m: AddrMan) returns (img: Image)
    requires m.Shape() && Inv(m.Model())
    ensures img == Saved(m.Model())
    ensures |img.news| == m.nNew && |img.trieds| == m.nTried
  {
    ghost var s := m.Model();
    var news, mapUnkIds := WriteNews(m);
    var trieds := WriteTrieds(m);
    var rows: seq<seq<int>> := [];
    for bucket := 0 to m.h.nNewBuckets
      invariant |rows| == bucket && forall b | 0 <= b < bucket :: rows[b] == Row(s, b, m.h.nBucketSize)
    {
      var row := WriteRow(m, mapUnkIds, bucket);
      rows := rows + [row];
    }
    img := Image(1, 32, Flip(m.h.nNewBuckets), news, trieds, rows);
    assert rows == Saved(s).rows;
    ListedCount(s);
  }

  // ----- Clear -----

  /** `Clear` forgets the tables, the random order and the counters, but neither `mapInfo` nor `mapAddr`. */
  function Cleared(s: State): State {
    Blank(s.h).(mapInfo := s.mapInfo, mapAddr := s.mapAddr)
  }

  /** So it leaves a consistent manager exactly when there was nothing to forget. */
  lemma ClearedIsConsistent(s: State)
    requires s.h.Ok()
    ensures Inv(Cleared(s)) <==> s.mapInfo == map[] && s.mapAddr == map[]
  {
    var t := Cleared(s);
    if Inv(t) {
      forall id ensures id !in s.mapInfo {
        assert id in t.mapInfo ==> IdOk(t, id);
      }
      forall ip ensures ip !in s.mapAddr {
        assert ip in t.mapAddr ==> IpOk(t, ip);
      }
    }
    if s.mapInfo == map[] && s.mapAddr == map[] {
      BlankOk(s.h, []);
      assert NewIds(Blank(s.h)) == {};
    }
  }

  /** A manager with one tried entry: consistent before `Clear` and not after. */
  lemma ClearBreaks(h: Hashing, p: Persisted, s: State)
    requires h.Ok() && s == LoadTried(Blank(h), p)
    ensures Inv(s) && !Inv(Cleared(s))
  {
    BlankOk(h, []);
    LoadTriedKeeps(Blank(h), NOTHING, [], p, s, AbsLoadTried(h, NOTHING, p));
    assert NewIds(s) == {};
    ClearedIsConsistent(s);
    assert 0 in s.mapInfo;
  }

  method ClearTable(t: array2<int>)
    modifies t
    ensures TableOf(t) == map[]
  {
    for bucket := 0 to t.Length0
      invariant forall b, i | 0 <= b < bucket && 0 <= i < t.Length1 :: t[b, i] == -1
    {
      for entry := 0 to t.Length1
        invariant forall b, i | 0 <= b < bucket && 0 <= i < t.Length1 :: t[b, i] == -1
        invariant forall i | 0 <= i < entry :: t[bucket, i] == -1
      {
        t[bucket, entry] := -1;
      }
    }
  }

  method Clear(m: AddrMan)
    requires m.Shape()
    modifies m, m.vvNew, m.vvTried
    ensures m.Model() == Cleared(old(m.Model()))
  {
    m.vRandom := [];
    ClearTable(m.vvNew);
    ClearTable(m.vvTried);
    m.nIdCount, m.nTried, m.nNew, m.nLastGood := 0, 0, 0, 1;
  }

  // ----- reading -----

  /** As many rows as the stream says there are buckets. */
  ghost predicate Complete(img: Image) {
    |img.rows| == if Buckets(img) < 0 then 0 else Buckets(img)
  }

  ghost predicate Placed(s: State, id: int) {
    && id in s.mapInfo && 0 <= id < s.nIdCount
    && 0 <= s.mapInfo[id].nRandomPos < |s.vRandom| && s.vRandom[s.mapInfo[id].nRandomPos] == id
  }

  /** The random order lists every entry, whatever addresses the stream names. */
  ghost predicate Listing(s: State) {
    && s.nIdCount >= 0
    && (forall id {:trigger Placed(s, id)} | id in s.mapInfo :: Placed(s, id))
    && (forall i {:trigger PosOk(s, i)} | 0 <= i < |s.vRandom| :: PosOk(s, i))
  }

  lemma CreateListing(s: State, st: Stats)
    requires Listing(s)
    ensures Listing(Create(s, st)) && s.nIdCount !in s.mapInfo
  {
    var t := Create(s, st);
    assert s.nIdCount in s.mapInfo ==> Placed(s, s.nIdCount);
    forall id | id in t.mapInfo ensures Placed(t, id) {
      if id in s.mapInfo {
        assert Placed(s, id);
      }
    }
    forall i | 0 <= i < |t.vRandom| ensures PosOk(t, i) {
      if i < |s.vRandom| {
        assert PosOk(s, i);
      }
    }
  }

  /** Only counts, tables and flags differ. */
  predicate SameOrder(s: State, t: State) {
    && t.vRandom == s.vRandom && t.nIdCount == s.nIdCount && t.mapInfo.Keys == s.mapInfo.Keys
    && forall id | id in s.mapInfo :: t.mapInfo[id].nRandomPos == s.mapInfo[id].nRandomPos
  }

  lemma SameListing(s: State, t: State)
    requires Listing(s) && SameOrder(s, t)
    ensures Listing(t)
  {
    forall id | id in t.mapInfo ensures Placed(t, id) {
      assert Placed(s, id);
    }
    forall i | 0 <= i < |t.vRandom| ensures PosOk(t, i) {
      assert PosOk(s, i);
      var id := s.vRandom[i];
      assert t.mapInfo[id].nRandomPos == s.mapInfo[id].nRandomPos;
    }
  }

  lemma SwapListing(s: State, i: int, j: int)
    requires Listing(s) && PosOk(s, i) && PosOk(s, j)
    ensures Listing(Swap(s, i, j))
  {
    var t := Swap(s, i, j);
    forall id | id in t.mapInfo ensures Placed(t, id) {
      assert Placed(s, id);
    }
    forall k | 0 <= k < |t.vRandom| ensures PosOk(t, k) {
      assert PosOk(s, k);
      SwapPos(s, i, j, k);
    }
  }

  lemma DropListing(s: State, id: int)
    requires Listing(s) && id in s.mapInfo && |s.vRandom| > 0 && s.vRandom[|s.vRandom| - 1] == id
    ensures Listing(Drop(s, id))
  {
    var t := Drop(s, id);
    forall k | k in t.mapInfo ensures Placed(t, k) {
      assert Placed(s, k);
    }
    assert PosOk(s, |s.vRandom| - 1);
    forall k | 0 <= k < |t.vRandom| ensures PosOk(t, k) {
      assert PosOk(s, k);
    }
  }

  lemma DeleteListing(s: State, id: int)
    requires Listing(s) && id in s.mapInfo
    ensures PosOk(s, s.mapInfo[id].nRandomPos) && PosOk(s, |s.vRandom| - 1) && Listing(Delete(s, id))
  {
    assert Placed(s, id);
    var i, j := s.mapInfo[id].nRandomPos, |s.vRandom| - 1;
    assert PosOk(s, i) && PosOk(s, j);
    SwapListing(s, i, j);
    DropListing(Swap(s, i, j), id);
  }

  lemma LoadNewListing(s: State, p: Persisted, usable: bool)
    requires s.h.Ok() && Listing(s)
    ensures Listing(LoadNew(s, p, usable))
  {
    CreateListing(s, Revive(p));
    SameListing(Create(s, Revive(p)), LoadNew(s, p, usable));
  }

  lemma {:induction false} LoadNewsListing(s: State, ps: seq<Persisted>, n: nat, usable: bool, t: State)
    requires s.h.Ok() && Listing(s) && n <= |ps| && s.nIdCount == 0 && t == LoadNews(s, ps, n, usable)
    ensures Listing(t) && t.nIdCount == n && forall k | 0 <= k < n :: k in t.mapInfo
  {
    if n > 0 {
      var t0 := LoadNews(s, ps, n - 1, usable);
      LoadNewsListing(s, ps, n - 1, usable, t0);
      LoadNewListing(t0, ps[n - 1], usable);
    }
  }

  lemma LoadTriedListing(s: State, p: Persisted)
    requires s.h.Ok() && Listing(s)
    ensures Listing(LoadTried(s, p)) && s.mapInfo.Keys <= LoadTried(s, p).mapInfo.Keys
  {
    CreateListing(s, Revive(p));
    if s.h.TriedSlot(p.service) !in s.vvTried {
      SameListing(Create(s, Revive(p)), LoadTried(s, p));
    }
  }

  lemma {:induction false} LoadTriedsListing(s: State, ps: seq<Persisted>, n: nat, t: State)
    requires s.h.Ok() && Listing(s) && n <= |ps| && t == LoadTrieds(s, ps, n)
    ensures Listing(t) && s.mapInfo.Keys <= t.mapInfo.Keys
  {
    if n > 0 {
      var t0 := LoadTrieds(s, ps, n - 1);
      LoadTriedsListing(s, ps, n - 1, t0);
      LoadTriedListing(t0, ps[n - 1]);
    }
  }

  lemma {:induction false} LoadRowListing(s: State, nNew: nat, b: nat, row: seq<int>, n: nat, t: State)
    requires s.h.Ok() && Listing(s) && n <= |row| && t == LoadRow(s, nNew, b, row, n)
    ensures Listing(t) && t.mapInfo.Keys == s.mapInfo.Keys
  {
    if n > 0 {
      var t0 := LoadRow(s, nNew, b, row, n - 1);
      LoadRowListing(s, nNew, b, row, n - 1, t0);
      SameListing(t0, t);
    }
  }

  lemma {:induction false} LoadRowsListing(s: State, nNew: nat, rows: seq<seq<int>>, n: nat, t: State)
    requires s.h.Ok() && Listing(s) && n <= |rows| && t == LoadRows(s, nNew, rows, n)
    ensures Listing(t) && t.mapInfo.Keys == s.mapInfo.Keys
  {
    if n > 0 {
      var t0 := LoadRows(s, nNew, rows, n - 1);
      LoadRowsListing(s, nNew, rows, n - 1, t0);
      LoadRowListing(t0, nNew, n - 1, rows[n - 1], |rows[n - 1]|, t);
    }
  }

  lemma {:induction false} PruneListing(s: State, n: nat, t: State)
    requires Listing(s) && t == Prune(s, n)
    ensures Listing(t) && t.nIdCount == s.nIdCount
  {
    if n > 0 {
      var t0, k := PrunePrevious(s, n, t);
      PruneListing(s, k, t0);
      PruneOneListing(t0, k, t);
    }
  }

  lemma PruneOneListing(s: State, id: int, t: State)
    requires Listing(s) && t == PruneOne(s, id)
    ensures Listing(t) && t.nIdCount == s.nIdCount
  {
    if id in s.mapInfo {
      DeleteListing(s, id);
      DeleteIds(s, id);
    }
  }

  /** The first loop counts with its own variable: `nIdCount`, `nNew` and `nTried` are set elsewhere. */
  ghost function Uncounted(s: State, n: nat): State {
    s.(nIdCount := n, nNew := n, nTried := 0)
  }

  method IndexNew(m: AddrMan, p: Persisted, n: nat)
    requires m.Shape()
    modifies m
    ensures Uncounted(m.Model(), n + 1) == Create(Uncounted(old(m.Model()), n), Revive(p)).(nNew := n + 1)
    ensures m.nIdCount == old(m.nIdCount) && m.nNew == old(m.nNew) && m.nTried == old(m.nTried)
  {
    Reindexed(m.mapInfo, n, Info(Revive(p), 0, false, -1), |m.vRandom|);
    m.mapInfo := m.mapInfo[n := Info(Revive(p), 0, false, -1)];
    m.mapAddr := m.mapAddr[p.service.ip := n];
    m.mapInfo := m.mapInfo[n := m.mapInfo[n].(nRandomPos := |m.vRandom|)];
    m.vRandom := m.vRandom + [n];
  }

  lemma Reindexed(m: map<int, Info>, n: int, info: Info, pos: int)
    ensures m[n := info][n := m[n := info][n].(nRandomPos := pos)] == m[n := info.(nRandomPos := pos)]
  {
  }

  /** When the stored places cannot be used: try the one place the entry's source gives it. */
  method PlaceBySource(m: AddrMan, p: Persisted, n: nat)
    requires m.Shape() && n in m.mapInfo
    modifies m, m.vvNew
    ensures
      var sl := m.h.NewSlot(p.service, p.source);
      m.Model() == if sl in old(m.Model()).vvNew then old(m.Model()) else Enter(old(m.Model()), n, sl)
  {
    var nUBucket := m.h.NewBucket(p.service.ip, p.source);
    var nUBucketPos := m.h.Position(p.service, true, nUBucket);
    TableAt(m.vvNew, nUBucket, nUBucketPos);
    if m.vvNew[nUBucket, nUBucketPos] == -1 {
      m.EnterNew(n, nUBucket, nUBucketPos);
    }
  }

  method ReadNew(m: AddrMan, p: Persisted, n: nat, usable: bool)
    requires m.Shape() && Listing(Uncounted(m.Model(), n))
    modifies m, m.vvNew
    ensures Uncounted(m.Model(), n + 1) == LoadNew(Uncounted(old(m.Model()), n), p, usable)
    ensures m.nIdCount == old(m.nIdCount) && m.nNew == old(m.nNew) && m.nTried == old(m.nTried)
  {
    IndexNew(m, p, n);
    assert n in Uncounted(m.Model(), n + 1).mapInfo;
    if !usable {
      PlaceBySource(m, p, n);
    }
  }

  method ReadNews(m: AddrMan, img: Image)
    requires m.Shape() && Uncounted(m.Model(), 0) == Blank(m.h) && m.nNew == |img.news|
    modifies m, m.vvNew
    ensures m.Model().(nTried := 0) == LoadNews(Blank(m.h), img.news, |img.news|, Usable(m.h, img))
    ensures m.nTried == old(m.nTried)
  {
    ReadNewList(m, img.news, Usable(m.h, img), Blank(m.h));
    m.nIdCount := m.nNew;
  }

  method ReadNewList(m: AddrMan, news: seq<Persisted>, usable: bool, ghost s: State)
    requires m.Shape() && s == Blank(m.h) && Uncounted(m.Model(), 0) == s && m.nNew == |news|
    modifies m, m.vvNew
    ensures m.Shape() && m.nNew == |news| && Uncounted(m.Model(), |news|) == LoadNews(s, news, |news|, usable)
    ensures m.nTried == old(m.nTried)
  {
    for n := 0 to m.nNew
      invariant m.nNew == |news| && m.nTried == old(m.nTried) && m.nIdCount == old(m.nIdCount)
      invariant Uncounted(m.Model(), n) == LoadNews(s, news, n, usable)
    {
      LoadNewsListing(s, news, n, usable, Uncounted(m.Model(), n));
      ReadNew(m, news[n], n, usable);
    }
  }

  lemma Installed(s: State, st: Stats)
    requires s.h.Ok()
    ensures
      var id := s.nIdCount;
      Promote(Create(s, st), id) ==
      s.(nIdCount := id + 1, mapInfo := s.mapInfo[id := Info(st, 0, true, |s.vRandom|)], mapAddr := s.mapAddr[st.service.ip := id],
         vRandom := s.vRandom + [id], vvTried := s.vvTried[s.h.TriedSlot(st.service) := id], nTried := s.nTried + 1)
  {
    var id, info := s.nIdCount, Info(st, 0, false, |s.vRandom|);
    assert s.mapInfo[id := info][id := info.(fInTried := true)] == s.mapInfo[id := info.(fInTried := true)];
  }

  method InstallTried(m: AddrMan, p: Persisted, kb: nat, ki: nat, ghost k: int)
    requires m.Shape() && m.nIdCount >= 0 && Slot(kb, ki) == m.h.TriedSlot(p.service)
    modifies m, m.vvTried
    ensures m.Model().(nTried := k + 1) == Promote(Create(old(m.Model()).(nTried := k), Revive(p)), old(m.nIdCount))
    ensures m.nTried == old(m.nTried)
  {
    Installed(m.Model().(nTried := k), Revive(p));
    var info := Info(Revive(p), 0, true, |m.vRandom|);
    m.vRandom := m.vRandom + [m.nIdCount];
    m.mapInfo := m.mapInfo[m.nIdCount := info];
    m.mapAddr := m.mapAddr[p.service.ip := m.nIdCount];
    Store(m.vvTried, kb, ki, m.nIdCount);
    m.nIdCount := m.nIdCount + 1;
  }

  /** `nTried` holds the announced count; `k` is how many are in. */
  method ReadTried(m: AddrMan, p: Persisted, nLost0: nat, ghost k: int) returns (nLost: nat)
    requires m.Shape() && m.nIdCount >= 0
    modifies m, m.vvTried
    ensures m.Model().(nTried := k + 1 + nLost0 - nLost) == LoadTried(old(m.Model()).(nTried := k), p)
    ensures m.nTried == old(m.nTried)
  {
    nLost := nLost0;
    var nKBucket := m.h.TriedBucket(p.service);
    var nKBucketPos := m.h.Position(p.service, false, nKBucket);
    TableAt(m.vvTried, nKBucket, nKBucketPos);
    if m.vvTried[nKBucket, nKBucketPos] == -1 {
      InstallTried(m, p, nKBucket, nKBucketPos, k);
    } else {
      nLost := nLost + 1;
    }
  }

  method ReadTrieds(m: AddrMan, trieds: seq<Persisted>, ghost s: State)
    requires m.Shape() && m.Model().(nTried := 0) == s && m.nTried == |trieds| && Listing(s)
    modifies m, m.vvTried
    ensures m.Model() == LoadTrieds(s, trieds, |trieds|)
  {
    var nLost := 0;
    ghost var t := s;
    for n := 0 to m.nTried
      invariant m.nTried == |trieds| && t == LoadTrieds(s, trieds, n) && t.nTried == n - nLost && m.Model().(nTried := t.nTried) == t
    {
      LoadTriedsListing(s, trieds, n, t);
      ghost var k := t.nTried;
      t := LoadTried(t, trieds[n]);
      assert t == LoadTrieds(s, trieds, n + 1);
      nLost := ReadTried(m, trieds[n], nLost, k);
    }
    m.nTried := m.nTried - nLost;
  }

  method ReadIndex(m: AddrMan, nNew: nat, bucket: nat, nIndex: int)
    requires m.Shape() && bucket < m.h.nNewBuckets && forall k | 0 <= k < nNew :: k in m.mapInfo
    modifies m, m.vvNew
    ensures m.Model() == LoadIndex(old(m.Model()), nNew, bucket, nIndex)
  {
    if nIndex >= 0 && nIndex < nNew {
      var nUBucketPos := m.h.Position(m.mapInfo[nIndex].stats.service, true, bucket);
      TableAt(m.vvNew, bucket, nUBucketPos);
      if m.vvNew[bucket, nUBucketPos] == -1 && m.mapInfo[nIndex].nRefCount < BUCKETS_PER_ADDRESS {
        m.EnterNew(nIndex, bucket, nUBucketPos);
      }
    }
  }

  method ReadRow(m: AddrMan, nNew: nat, bucket: nat, row: seq<int>)
    requires m.Shape() && Listing(m.Model()) && bucket < m.h.nNewBuckets && forall k | 0 <= k < nNew :: k in m.mapInfo
    modifies m, m.vvNew
    ensures m.Model() == LoadRow(old(m.Model()), nNew, bucket, row, |row|)
  {
    ghost var s := m.Model();
    for n := 0 to |row|
      invariant m.Model() == LoadRow(s, nNew, bucket, row, n)
    {
      LoadRowListing(s, nNew, bucket, row, n, m.Model());
      ReadIndex(m, nNew, bucket, row[n]);
    }
  }

  method ReadRows(m: AddrMan, img: Image)
    requires m.Shape() && Listing(m.Model()) && m.nNew == |img.news| && Complete(img)
    requires forall k | 0 <= k < m.nNew :: k in m.mapInfo
    modifies m, m.vvNew
    ensures m.Model() == if Usable(m.h, img) then LoadRows(old(m.Model()), |img.news|, img.rows, |img.rows|) else old(m.Model())
  {
    ghost var s := m.Model();
    for bucket := 0 to |img.rows|
      invariant m.Model() == if Usable(m.h, img) then LoadRows(s, |img.news|, img.rows, bucket) else s
    {
      if img.nVersion == 1 && Buckets(img) == m.h.nNewBuckets {
        LoadRowsListing(s, |img.news|, img.rows, bucket, m.Model());
        ReadRow(m, |img.news|, bucket, img.rows[bucket]);
      }
    }
  }

  method PruneEntries(m: AddrMan)
    requires m.Shape() && Listing(m.Model())
    modifies m
    ensures m.Model() == Prune(old(m.Model()), old(m.nIdCount))
  {
    ghost var s := m.Model();
    var n := m.nIdCount;
    for id := 0 to n
      invariant m.Model() == Prune(s, id)
    {
      PruneListing(s, id, m.Model());
      if id in m.mapInfo && !m.mapInfo[id].fInTried && m.mapInfo[id].nRefCount == 0 {
        DeleteListing(m.Model(), id);
        m.Delete(id);
      }
    }
  }

  lemma LoadNewsCount(s: State, ps: seq<Persisted>, n: nat, usable: bool)
    requires s.h.Ok() && n <= |ps|
    ensures LoadNews(s, ps, n, usable).nNew == s.nNew + n
  {
  }

  lemma {:induction false} LoadTriedsCount(s: State, ps: seq<Persisted>, n: nat)
    requires s.h.Ok() && n <= |ps|
    ensures LoadTrieds(s, ps, n).nNew == s.nNew
  {
    if n > 0 {
      LoadTriedsCount(s, ps, n - 1);
    }
  }

  /** Reading into a manager that never held an entry. `false` stands for a thrown failure. */
  method Unserialize(m: AddrMan, img: Image) returns (ok: bool)
    requires m.Shape() && m.mapInfo == map[] && m.mapAddr == map[] && Complete(img)
    modifies m, m.vvNew, m.vvTried
    ensures ok <==> !Throws(m.h, img)
    ensures ok ==> m.Model() == Loaded(m.h, img)
  {
    Clear(m);
    if img.nKeySize != 32 {
      return false;
    }
    m.nNew, m.nTried := |img.news|, |img.trieds|;
    if m.nNew > m.h.nNewBuckets * m.h.nBucketSize || m.nTried > m.h.nTriedBuckets * m.h.nBucketSize {
      return false;
    }
    ghost var s0, n, usable := Blank(m.h), |img.news|, Usable(m.h, img);
    ReadNews(m, img);
    ghost var s1 := LoadNews(s0, img.news, n, usable);
    LoadNewsListing(s0, img.news, n, usable, s1);
    LoadNewsCount(s0, img.news, n, usable);
    ReadTrieds(m, img.trieds, s1);
    ghost var s2 := LoadTrieds(s1, img.trieds, |img.trieds|);
    LoadTriedsListing(s1, img.trieds, |img.trieds|, s2);
    LoadTriedsCount(s1, img.trieds, |img.trieds|);
    ReadRows(m, img);
    if usable {
      LoadRowsListing(s2, n, img.rows, |img.rows|, m.Model());
    }
    PruneEntries(m);
    ok := true;
  }

  /** The same addresses in the same places, with the same counts; only the times of the last attempts are gone. */
  ghost predicate Restored(s: State, t: State) {
    Inv(t) && Abstract(t) == Forget(Abstract(s)) && t.nNew == s.nNew && t.nTried == s.nTried
  }

  lemma ReloadRestores(s: State, img: Image)
    requires Inv(s) && img == Saved(s)
    ensures Complete(img) && !Throws(s.h, img) && Restored(s, Loaded(s.h, img))
  {
    SavedIsAccepted(s);
    RoundTrip(s);
    CountsRestored(s, Loaded(s.h, img));
  }

  method Reload(m: AddrMan) returns (r: AddrMan)
    requires m.Shape() && Inv(m.Model())
    ensures fresh(r) && r.Shape() && Restored(old(m.Model()), r.Model())
  {
    ghost var s := m.Model();
    var img := Serialize(m);
    ReloadRestores(s, img);
    r := new AddrMan(m.h);
    var ok := Unserialize(r, img);
  }
}
