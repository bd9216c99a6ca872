/** When a stored form that names an address twice still loads into a consistent manager, said on the stored form itself. */
module AddrManShared {
  import opened AddrManModel
  import opened AddrManMoves
  import opened AddrManStore
  import opened AddrManTwice

  // ----- who gets a place -----

  /** No earlier new entry has the same first choice of a slot. */
  ghost predicate FirstNew(h: Hashing, news: seq<Persisted>, k: nat)
    requires h.Ok() && k < |news|
  {
    forall j | 0 <= j < k :: NewPlace(h, news[j]) != NewPlace(h, news[k])
  }

  function NewPlace(h: Hashing, p: Persisted): Slot
    requires h.Ok()
  {
    h.NewSlot(p.service, p.source)
  }

  /** No earlier tried entry has the same slot. */
  ghost predicate FirstTried(h: Hashing, trieds: seq<Persisted>, k: nat)
    requires h.Ok() && k < |trieds|
  {
    forall j | 0 <= j < k :: h.TriedSlot(trieds[j].service) != h.TriedSlot(trieds[k].service)
  }

  /** The positions of the tried entries that get their slot. */
  ghost function Kept(h: Hashing, trieds: seq<Persisted>, m: nat): (ks: seq<nat>)
    requires h.Ok() && m <= |trieds|
    ensures forall i | 0 <= i < |ks| :: ks[i] < m && FirstTried(h, trieds, ks[i])
    ensures forall i, j | 0 <= i < j < |ks| :: ks[i] < ks[j]
    ensures forall k | 0 <= k < m && FirstTried(h, trieds, k) :: k in ks
  {
    if m == 0 then [] else Kept(h, trieds, m - 1) + if FirstTried(h, trieds, m - 1) then [m - 1] else []
  }

  ghost function Prompt(h: Hashing, news: seq<Persisted>): set<int>
    requires h.Ok()
  {
    set k | 0 <= k < |news| && FirstNew(h, news, k)
  }

  ghost function Firsts(h: Hashing, trieds: seq<Persisted>): set<int>
    requires h.Ok()
  {
    set k | 0 <= k < |trieds| && FirstTried(h, trieds, k)
  }

  function Addresses(ps: seq<Persisted>): seq<Ip> {
    seq(|ps|, k requires 0 <= k < |ps| => ps[k].service.ip)
  }

  /** The address of no tried entry `firsts` is that of a new entry or of another one of them. */
  ghost predicate Alone(news: seq<Ip>, trieds: seq<Ip>, firsts: set<int>) {
    && (forall j, k | 0 <= j < |news| && k in firsts && 0 <= k < |trieds| :: news[j] != trieds[k])
    && (forall j, k | j in firsts && k in firsts && 0 <= j < k < |trieds| :: trieds[j] != trieds[k])
  }

  /** Tried entries that get their slot share their address with nobody. */
  ghost predicate TriedAlone(h: Hashing, img: Image)
    requires h.Ok()
  {
    Alone(Addresses(img.news), Addresses(img.trieds), Firsts(h, img.trieds))
  }

  predicate Shares(all: seq<Ip>, i: int, j: int) {
    0 <= i < |all| && 0 <= j < |all| && i != j && all[i] == all[j]
  }

  /** None of `busy` shares its address. */
  ghost predicate Unshared(news: seq<Ip>, busy: set<int>) {
    forall i, j {:trigger Shares(news, i, j)} | Shares(news, i, j) :: i !in busy
  }

  // ----- reading the new list -----

  ghost predicate NewAt(h: Hashing, s: State, news: seq<Persisted>, usable: bool, k: nat)
    requires h.Ok() && k < |news|
  {
    && k in s.mapInfo && s.mapInfo[k].Ip() == news[k].service.ip && !s.mapInfo[k].fInTried
    && s.mapInfo[k].nRefCount == if !usable && FirstNew(h, news, k) then 1 else 0
  }

  ghost predicate TakenNew(h: Hashing, news: seq<Persisted>, n: nat, sl: Slot)
    requires h.Ok() && n <= |news|
  {
    exists k | 0 <= k < n :: NewPlace(h, news[k]) == sl
  }

  ghost predicate NewsIn(h: Hashing, s: State, news: seq<Persisted>, usable: bool, n: nat)
    requires h.Ok() && n <= |news|
  {
    && s.h == h && s.nIdCount == n && s.vvTried == map[]
    && (forall id | id in s.mapInfo :: 0 <= id < n)
    && (forall k {:trigger NewAt(h, s, news, usable, k)} | 0 <= k < n :: NewAt(h, s, news, usable, k))
    && (!usable ==> forall sl {:trigger sl in s.vvNew} :: sl in s.vvNew <==> TakenNew(h, news, n, sl))
  }

  lemma TakenNext(h: Hashing, news: seq<Persisted>, n: nat, m: nat, sl: Slot)
    requires h.Ok() && m == n + 1 <= |news|
    ensures TakenNew(h, news, m, sl) <==> TakenNew(h, news, n, sl) || NewPlace(h, news[n]) == sl
    ensures TakenNew(h, news, n, NewPlace(h, news[n])) <==> !FirstNew(h, news, n)
  {
  }

  lemma NextNewIn(h: Hashing, s: State, t: State, news: seq<Persisted>, usable: bool, n: nat, m: nat)
    requires h.Ok() && m == n + 1 <= |news| && NewsIn(h, s, news, usable, n) && t == LoadNew(s, news[n], usable)
    ensures NewsIn(h, t, news, usable, m)
  {
    var sl := NewPlace(h, news[n]);
    TakenNext(h, news, n, m, sl);
    forall k | 0 <= k < m ensures NewAt(h, t, news, usable, k) {
      assert k < n ==> NewAt(h, s, news, usable, k);
    }
    if !usable {
      forall x ensures x in t.vvNew <==> TakenNew(h, news, m, x) {
        assert x in s.vvNew <==> TakenNew(h, news, n, x);
        TakenNext(h, news, n, m, x);
      }
    }
  }

  lemma {:induction false} AllNewsIn(h: Hashing, news: seq<Persisted>, usable: bool, n: nat, s: State)
    requires h.Ok() && n <= |news| && s == LoadNews(Blank(h), news, n, usable)
    ensures NewsIn(h, s, news, usable, n)
  {
    if n > 0 {
      var k := n - 1;
      var s0 := LastNew(Blank(h), news, k, n, usable, s);
      AllNewsIn(h, news, usable, k, s0);
      NextNewIn(h, s0, s, news, usable, k, n);
    }
  }

  // ----- reading the tried list -----

  ghost predicate TriedAt(s: State, id: int, p: Persisted) {
    id in s.mapInfo && s.mapInfo[id].Ip() == p.service.ip && s.mapInfo[id].fInTried
  }

  ghost predicate TakenTried(h: Hashing, trieds: seq<Persisted>, n: nat, sl: Slot)
    requires h.Ok() && n <= |trieds|
  {
    exists k | 0 <= k < n :: h.TriedSlot(trieds[k].service) == sl
  }

  /** After the new entries of `s0`, which are kept, comes an entry for each of `ks`. */
  ghost predicate TriedsIn(s0: State, s: State, trieds: seq<Persisted>, ks: seq<nat>, n: nat, m: nat)
    requires s0.h.Ok() && m <= |trieds| && forall i | 0 <= i < |ks| :: ks[i] < m
  {
    && s.h == s0.h && s.nIdCount == n + |ks|
    && (forall id | id in s.mapInfo :: 0 <= id < n + |ks|)
    && (forall id | 0 <= id < n :: id in s.mapInfo && id in s0.mapInfo && s.mapInfo[id] == s0.mapInfo[id])
    && (forall i {:trigger ks[i]} | 0 <= i < |ks| :: TriedAt(s, n + i, trieds[ks[i]]))
    && (forall sl {:trigger sl in s.vvTried} :: sl in s.vvTried <==> TakenTried(s.h, trieds, m, sl))
  }

  lemma TakenTriedNext(h: Hashing, trieds: seq<Persisted>, n: nat, m: nat, sl: Slot)
    requires h.Ok() && m == n + 1 <= |trieds|
    ensures TakenTried(h, trieds, m, sl) <==> TakenTried(h, trieds, n, sl) || h.TriedSlot(trieds[n].service) == sl
    ensures TakenTried(h, trieds, n, h.TriedSlot(trieds[n].service)) <==> !FirstTried(h, trieds, n)
  {
  }

  lemma NextTakenIn(s0: State, s: State, t: State, trieds: seq<Persisted>, ks: seq<nat>, n: nat, k: nat, m: nat)
    requires s0.h.Ok() && m == k + 1 <= |trieds| && (forall i | 0 <= i < |ks| :: ks[i] < k)
    requires TriedsIn(s0, s, trieds, ks, n, k) && t == LoadTried(s, trieds[k])
    ensures forall sl {:trigger sl in t.vvTried} :: sl in t.vvTried <==> TakenTried(s0.h, trieds, m, sl)
    ensures s0.h.TriedSlot(trieds[k].service) in s.vvTried <==> !FirstTried(s0.h, trieds, k)
  {
    var h := s0.h;
    TakenTriedNext(h, trieds, k, m, h.TriedSlot(trieds[k].service));
    forall x ensures x in t.vvTried <==> TakenTried(h, trieds, m, x) {
      assert x in s.vvTried <==> TakenTried(h, trieds, k, x);
      TakenTriedNext(h, trieds, k, m, x);
    }
  }

  lemma NextTriedIn(s0: State, s: State, t: State, trieds: seq<Persisted>, ks: seq<nat>, ks': seq<nat>, n: nat, k: nat, m: nat)
    requires s0.h.Ok() && m == k + 1 <= |trieds| && (forall i | 0 <= i < |ks| :: ks[i] < k)
    requires TriedsIn(s0, s, trieds, ks, n, k) && t == LoadTried(s, trieds[k])
    requires ks' == if FirstTried(s0.h, trieds, k) then ks + [k] else ks
    ensures TriedsIn(s0, t, trieds, ks', n, m)
  {
    NextTakenIn(s0, s, t, trieds, ks, n, k, m);
    if FirstTried(s0.h, trieds, k) {
      forall i {:trigger ks'[i]} | 0 <= i < |ks'| ensures TriedAt(t, n + i, trieds[ks'[i]]) {
        assert i < |ks| ==> ks'[i] == ks[i] && TriedAt(s, n + i, trieds[ks[i]]);
      }
    }
  }

  lemma KeptNext(h: Hashing, trieds: seq<Persisted>, k: nat, m: nat)
    requires h.Ok() && m == k + 1 <= |trieds|
    ensures Kept(h, trieds, m) == if FirstTried(h, trieds, k) then Kept(h, trieds, k) + [k] else Kept(h, trieds, k)
  {
  }

  lemma {:induction false} AllTriedsIn(s0: State, trieds: seq<Persisted>, n: nat, m: nat, s: State)
    requires s0.h.Ok() && m <= |trieds| && s == LoadTrieds(s0, trieds, m) && s0.nIdCount == n && s0.vvTried == map[]
    requires forall id :: id in s0.mapInfo <==> 0 <= id < n
    ensures TriedsIn(s0, s, trieds, Kept(s0.h, trieds, m), n, m)
  {
    if m > 0 {
      var k := m - 1;
      var t := LastTried(s0, trieds, k, m, s);
      AllTriedsIn(s0, trieds, n, k, t);
      KeptNext(s0.h, trieds, k, m);
      NextTriedIn(s0, t, s, trieds, Kept(s0.h, trieds, k), Kept(s0.h, trieds, m), n, k, m);
    }
  }

  // ----- reading the rows -----

  /** Row entries give slots to the new entries they name, and change nothing else about any. */
  ghost predicate OnlySlots(s: State, t: State, mentioned: set<int>) {
    && t.mapInfo.Keys == s.mapInfo.Keys
    && forall id {:trigger t.mapInfo[id]} | id in s.mapInfo ::
         && t.mapInfo[id].Ip() == s.mapInfo[id].Ip() && t.mapInfo[id].fInTried == s.mapInfo[id].fInTried
         && (id !in mentioned ==> t.mapInfo[id].nRefCount == s.mapInfo[id].nRefCount)
  }

  lemma {:induction false} RowOnlySlots(s: State, nNew: nat, b: nat, row: seq<int>, n: nat, t: State, mentioned: set<int>)
    requires s.h.Ok() && n <= |row| && t == LoadRow(s, nNew, b, row, n) && forall x | x in row :: x in mentioned
    ensures OnlySlots(s, t, mentioned)
  {
    if n > 0 {
      var k := n - 1;
      var t0 := LoadRow(s, nNew, b, row, k);
      RowOnlySlots(s, nNew, b, row, k, t0, mentioned);
      assert t == LoadIndex(t0, nNew, b, row[k]) && row[k] in mentioned;
    }
  }

  ghost function Mentioned(rows: seq<seq<int>>): set<int> {
    set b, i | 0 <= b < |rows| && 0 <= i < |rows[b]| :: rows[b][i]
  }

  lemma {:induction false} RowsOnlySlots(s: State, nNew: nat, rows: seq<seq<int>>, n: nat, t: State)
    requires s.h.Ok() && n <= |rows| && t == LoadRows(s, nNew, rows, n)
    ensures OnlySlots(s, t, Mentioned(rows))
  {
    if n > 0 {
      var k := n - 1;
      var t0, row := LoadRows(s, nNew, rows, k), rows[k];
      RowsOnlySlots(s, nNew, rows, k, t0);
      forall x | x in row ensures x in Mentioned(rows) {
        var i :| 0 <= i < |row| && row[i] == x;
        assert rows[k][i] in Mentioned(rows);
      }
      RowOnlySlots(t0, nNew, k, row, |row|, t, Mentioned(rows));
    }
  }

  // ----- what the loaded entries are, before the last pass -----

  /** Entry `id` is a new one with address `all[id]` if it comes before `n`, and otherwise a tried one. */
  ghost predicate LabelAt(s: State, all: seq<Ip>, n: nat, id: int)
    requires 0 <= id < |all|
  {
    id in s.mapInfo && s.mapInfo[id].Ip() == all[id] && (s.mapInfo[id].fInTried <==> id >= n)
  }

  ghost predicate Labelled(s: State, all: seq<Ip>, n: nat) {
    && (forall id | id in s.mapInfo :: 0 <= id < |all|)
    && (forall id {:trigger LabelAt(s, all, n, id)} | 0 <= id < |all| :: LabelAt(s, all, n, id))
  }

  /** The entries with a slot in the new table. */
  function Placed(s: State): set<int> {
    set id | id in s.mapInfo && s.mapInfo[id].nRefCount != 0
  }

  ghost predicate Chosen(all: seq<Ip>, news: seq<Ip>, trieds: seq<Ip>, ks: seq<nat>) {
    && |all| == |news| + |ks| && (forall k | 0 <= k < |news| :: all[k] == news[k])
    && forall i {:trigger ks[i]} | 0 <= i < |ks| :: ks[i] < |trieds| && all[|news| + i] == trieds[ks[i]]
  }

  ghost function Labels(news: seq<Ip>, trieds: seq<Ip>, ks: seq<nat>): (all: seq<Ip>)
    requires forall i | 0 <= i < |ks| :: ks[i] < |trieds|
    ensures Chosen(all, news, trieds, ks) && news <= all
  {
    news + seq(|ks|, i requires 0 <= i < |ks| => trieds[ks[i]])
  }

  lemma NewLabel(h: Hashing, s0: State, s: State, news: seq<Persisted>, usable: bool, all: seq<Ip>, k: nat)
    requires h.Ok() && k < |news| && NewAt(h, s0, news, usable, k) && k in s.mapInfo && s.mapInfo[k] == s0.mapInfo[k]
    requires k < |all| && all[k] == news[k].service.ip
    ensures LabelAt(s, all, |news|, k) && (k in Placed(s) <==> !usable && FirstNew(h, news, k))
  {
  }

  lemma ListsLabelled(s0: State, s: State, h: Hashing, img: Image, usable: bool, ks: seq<nat>, all: seq<Ip>)
    requires h.Ok() && NewsIn(h, s0, img.news, usable, |img.news|) && forall i | 0 <= i < |ks| :: ks[i] < |img.trieds|
    requires TriedsIn(s0, s, img.trieds, ks, |img.news|, |img.trieds|)
    requires Chosen(all, Addresses(img.news), Addresses(img.trieds), ks)
    ensures Labelled(s, all, |img.news|)
    ensures forall k | 0 <= k < |img.news| :: k in Placed(s) <==> !usable && k in Prompt(h, img.news)
  {
    var n := |img.news|;
    forall k | 0 <= k < n ensures LabelAt(s, all, n, k) && (k in Placed(s) <==> !usable && k in Prompt(h, img.news)) {
      assert NewAt(h, s0, img.news, usable, k);
      NewLabel(h, s0, s, img.news, usable, all, k);
    }
    forall id | n <= id < |all| ensures LabelAt(s, all, n, id) {
      var i := id - n;
      assert TriedAt(s, n + i, img.trieds[ks[i]]) && all[n + i] == Addresses(img.trieds)[ks[i]];
    }
  }

  ghost function AllLabels(h: Hashing, img: Image): (all: seq<Ip>)
    requires h.Ok()
    ensures Addresses(img.news) <= all
  {
    Labels(Addresses(img.news), Addresses(img.trieds), Kept(h, img.trieds, |img.trieds|))
  }

  lemma ListsIn(h: Hashing, img: Image, usable: bool, n: nat, s: State)
    requires h.Ok() && n == |img.news| && s == LoadTrieds(LoadNews(Blank(h), img.news, n, usable), img.trieds, |img.trieds|)
    ensures Labelled(s, AllLabels(h, img), n)
    ensures forall k | 0 <= k < n :: k in Placed(s) <==> !usable && k in Prompt(h, img.news)
  {
    var s0 := LoadNews(Blank(h), img.news, n, usable);
    AllNewsIn(h, img.news, usable, n, s0);
    forall id ensures id in s0.mapInfo <==> 0 <= id < n {
      assert 0 <= id < n ==> NewAt(h, s0, img.news, usable, id);
    }
    AllTriedsIn(s0, img.trieds, n, |img.trieds|, s);
    ListsLabelled(s0, s, h, img, usable, Kept(h, img.trieds, |img.trieds|), AllLabels(h, img));
  }

  lemma LabelsStay(s: State, t: State, all: seq<Ip>, n: nat, mentioned: set<int>)
    requires Labelled(s, all, n) && OnlySlots(s, t, mentioned)
    ensures Labelled(t, all, n) && Placed(t) <= Placed(s) + mentioned
  {
    forall id | 0 <= id < |all| ensures LabelAt(t, all, n, id) {
      assert LabelAt(s, all, n, id);
      assert t.mapInfo[id].Ip() == s.mapInfo[id].Ip();
    }
    forall id | id in Placed(t) ensures id in Placed(s) + mentioned {
      assert t.mapInfo[id].Ip() == s.mapInfo[id].Ip();
    }
  }

  // ----- the conditions -----

  lemma ClashIs(s: State, all: seq<Ip>, n: nat, i: int, j: int)
    requires Labelled(s, all, n)
    ensures Clash(s, i, j) <==> Shares(all, i, j)
    ensures Clash(s, i, j) ==> (Slotless(s, i) <==> i < n && i !in Placed(s))
  {
    if 0 <= i < |all| {
      assert LabelAt(s, all, n, i);
    }
    if 0 <= j < |all| {
      assert LabelAt(s, all, n, j);
    }
  }

  /** Only entries before `n` share an address. */
  ghost predicate NoTriedShares(all: seq<Ip>, n: nat) {
    forall i, j {:trigger Shares(all, i, j)} | Shares(all, i, j) :: i < n
  }

  lemma AloneIsEnough(news: seq<Ip>, trieds: seq<Ip>, firsts: set<int>, ks: seq<nat>, all: seq<Ip>)
    requires Chosen(all, news, trieds, ks) && Alone(news, trieds, firsts)
    requires forall i | 0 <= i < |ks| :: ks[i] in firsts
    requires forall i, j | 0 <= i < j < |ks| :: ks[i] < ks[j]
    ensures NoTriedShares(all, |news|)
  {
    var n := |news|;
    forall i, j | 0 <= i < |all| && 0 <= j < |all| && i != j && i >= n ensures all[i] != all[j] {
      var k := ks[i - n];
      assert all[n + (i - n)] == trieds[k];
      if j >= n {
        var k' := ks[j - n];
        assert all[n + (j - n)] == trieds[k'];
        assert k < k' || k' < k;
      }
    }
  }

  lemma AloneIsNeeded(news: seq<Ip>, trieds: seq<Ip>, firsts: set<int>, ks: seq<nat>, all: seq<Ip>)
    requires Chosen(all, news, trieds, ks) && NoTriedShares(all, |news|)
    requires forall k | k in firsts :: 0 <= k && k in ks
    ensures Alone(news, trieds, firsts)
  {
    var n := |news|;
    forall j, k | 0 <= j < n && k in firsts && 0 <= k < |trieds| ensures news[j] != trieds[k] {
      var i :| 0 <= i < |ks| && ks[i] == k;
      assert all[n + i] == trieds[k] && !Shares(all, n + i, j);
    }
    forall j, k | j in firsts && k in firsts && 0 <= j < k < |trieds| ensures trieds[j] != trieds[k] {
      var i :| 0 <= i < |ks| && ks[i] == j;
      var i' :| 0 <= i' < |ks| && ks[i'] == k;
      assert all[n + i] == trieds[j] && all[n + i'] == trieds[k] && !Shares(all, n + i, n + i');
    }
  }

  lemma AloneIs(h: Hashing, img: Image)
    requires h.Ok()
    ensures TriedAlone(h, img) <==> NoTriedShares(AllLabels(h, img), |img.news|)
  {
    var ns, ts, ks := Addresses(img.news), Addresses(img.trieds), Kept(h, img.trieds, |img.trieds|);
    var firsts, all := Firsts(h, img.trieds), AllLabels(h, img);
    if TriedAlone(h, img) {
      AloneIsEnough(ns, ts, firsts, ks, all);
    }
    if NoTriedShares(all, |ns|) {
      AloneIsNeeded(ns, ts, firsts, ks, all);
    }
  }

  /** On a state whose entries are known, ambiguity is a matter of which new entries have a slot. */
  lemma UnambiguousIs(s: State, news: seq<Ip>, all: seq<Ip>)
    requires Labelled(s, all, |news|) && news <= all
    ensures Unambiguous(s) <==> NoTriedShares(all, |news|) && Unshared(news, Placed(s))
  {
    var n := |news|;
    if Unambiguous(s) {
      forall i, j | Shares(all, i, j) ensures i < n && i !in Placed(s) {
        ClashIs(s, all, n, i, j);
      }
      forall i, j | Shares(news, i, j) ensures i !in Placed(s) {
        assert Shares(all, i, j);
      }
    }
    if NoTriedShares(all, n) && Unshared(news, Placed(s)) {
      forall i, j | Clash(s, i, j) ensures Slotless(s, i) {
        ClashIs(s, all, n, i, j);
        assert Shares(all, j, i);
        assert Shares(news, i, j);
      }
    }
  }

  lemma FewerBusy(news: seq<Ip>, busy: set<int>, less: set<int>)
    requires Unshared(news, busy) && forall k | 0 <= k < |news| && k in less :: k in busy
    ensures Unshared(news, less)
  {
  }

  /** If the stored slots are not used: consistent iff tried entries that get their slot share their address with nobody, and new ones do not either. */
  lemma ConsistentWithoutRows(h: Hashing, img: Image)
    requires h.Ok() && !Usable(h, img)
    ensures Inv(Loaded(h, img)) <==> TriedAlone(h, img) && Unshared(Addresses(img.news), Prompt(h, img.news))
  {
    var s, news := Filled(h, img), Addresses(img.news);
    ConsistentIff(h, img);
    ListsIn(h, img, false, |img.news|, s);
    AloneIs(h, img);
    UnambiguousIs(s, news, AllLabels(h, img));
    if Unshared(news, Placed(s)) {
      FewerBusy(news, Placed(s), Prompt(h, img.news));
    }
    if Unshared(news, Prompt(h, img.news)) {
      FewerBusy(news, Prompt(h, img.news), Placed(s));
    }
  }

  /** If they are used: the first half is needed, and with it new entries that no row names may share an address. */
  lemma ConsistentWithRows(h: Hashing, img: Image)
    requires h.Ok() && Usable(h, img)
    ensures Inv(Loaded(h, img)) ==> TriedAlone(h, img)
    ensures TriedAlone(h, img) && Unshared(Addresses(img.news), Mentioned(img.rows)) ==> Inv(Loaded(h, img))
  {
    var n, s, news := |img.news|, Filled(h, img), Addresses(img.news);
    var s0, mentioned := LoadTrieds(LoadNews(Blank(h), img.news, n, true), img.trieds, |img.trieds|), Mentioned(img.rows);
    ConsistentIff(h, img);
    ListsIn(h, img, true, n, s0);
    RowsOnlySlots(s0, n, img.rows, |img.rows|, s);
    LabelsStay(s0, s, AllLabels(h, img), n, mentioned);
    AloneIs(h, img);
    UnambiguousIs(s, news, AllLabels(h, img));
    if Unshared(news, mentioned) {
      FewerBusy(news, mentioned, Placed(s));
    }
  }
}
