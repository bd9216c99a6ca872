/** The cuckoo cache (src/cuckoocache.h) as a value: table, discard flags and epochs. */
module CuckooModel {
  import opened Arith

  type Element = nat
  /** What a fresh table slot holds. */
  const DEFAULT: Element := 0

  datatype Params = Params(hash: (nat, Element) -> nat, size: nat, epoch_size: nat) {
    predicate Ok() { size > 0 && epoch_size > 0 }

    /** `compute_hashes`. */
    function Locs(e: Element): (l: seq<nat>)
      requires Ok()
      ensures |l| == 8 && forall k | 0 <= k < 8 :: l[k] < size
    {
      seq(8, k requires 0 <= k => hash(k, e) % size)
    }
  }

  /** `gone[i]` is the garbage-collection flag of slot `i`, `recent[i]` its epoch flag. */
  datatype State = State(table: seq<Element>, gone: seq<bool>, recent: seq<bool>) {
    predicate Sized(p: Params) { |table| == |gone| == |recent| == p.size }
  }

  // ----- invariant -----

  /** The first index of a position, or the number of positions. */
  function IndexOf(locs: seq<nat>, loc: int): (r: nat)
    ensures r <= |locs| && (forall j | 0 <= j < r :: locs[j] != loc) && (r < |locs| ==> locs[r] == loc)
  {
    if locs == [] || locs[0] == loc then 0 else 1 + IndexOf(locs[1..], loc)
  }

  /**
   * The default element also lies in slots that were never kept, so where it is kept matters: none of its positions
   * before that one is such a slot.
   */
  ghost predicate First(p: Params, ever: set<nat>, loc: nat)
    requires p.Ok()
  {
    forall j | 0 <= j < IndexOf(p.Locs(DEFAULT), loc) :: p.Locs(DEFAULT)[j] in ever
  }

  /** What holds of one slot, `ever` being the slots that were kept at some time. */
  ghost predicate SlotOk(p: Params, s: State, ever: set<nat>, i: nat)
    requires p.Ok() && s.Sized(p) && i < p.size
  {
    if i in ever then i in p.Locs(s.table[i]) && (s.table[i] == DEFAULT ==> First(p, ever, i))
    else s.gone[i] && s.table[i] == DEFAULT
  }

  ghost predicate Distinct(s: State, ever: set<nat>) {
    forall i, j | i in ever && j in ever && i < |s.table| && j < |s.table| && i != j :: s.table[i] != s.table[j]
  }

  ghost predicate Inv(p: Params, s: State, ever: set<nat>) {
    && p.Ok() && s.Sized(p) && (forall i | i in ever :: i < p.size) && Distinct(s, ever)
    && forall i {:trigger SlotOk(p, s, ever, i)} | 0 <= i < p.size :: SlotOk(p, s, ever, i)
  }

  /** The element in hand is in no kept slot. */
  ghost predicate Absent(s: State, ever: set<nat>, e: Element) {
    forall i | i in ever && i < |s.table| :: s.table[i] != e
  }

  predicate Found(p: Params, s: State, e: Element)
    requires p.Ok() && s.Sized(p)
  {
    exists k | 0 <= k < 8 :: s.table[p.Locs(e)[k]] == e
  }

  /** One of the element's positions was never kept; such a slot holds the default element. */
  ghost predicate NeverKept(p: Params, ever: set<nat>, e: Element)
    requires p.Ok()
  {
    exists k | 0 <= k < 8 :: p.Locs(e)[k] !in ever
  }

  /** Looking at an element's eight positions decides whether the table holds it, the default element included. */
  lemma FoundMeans(p: Params, s: State, ever: set<nat>, e: Element)
    requires Inv(p, s, ever)
    ensures Found(p, s, e) <==> !Absent(s, ever, e) || (e == DEFAULT && NeverKept(p, ever, e))
    ensures e != DEFAULT ==> (Found(p, s, e) <==> e in s.table)
  {
    var locs := p.Locs(e);
    if i :| 0 <= i < p.size && s.table[i] == e && (i in ever || e != DEFAULT) {
      assert SlotOk(p, s, ever, i);
      assert i in locs;
      var k :| 0 <= k < 8 && locs[k] == i;
      assert s.table[p.Locs(e)[k]] == e;
    }
    forall k | 0 <= k < 8 ensures locs[k] !in ever ==> s.table[locs[k]] == DEFAULT {
      assert SlotOk(p, s, ever, locs[k]);
    }
    assert e == DEFAULT && NeverKept(p, ever, e) ==> Found(p, s, e);
  }

  // ----- writing a slot -----

  function Put(s: State, loc: nat, e: Element, epoch: bool): State
    requires loc < |s.table| == |s.gone| == |s.recent|
  {
    State(s.table[loc := e], s.gone[loc := false], s.recent[loc := epoch])
  }

  lemma PutKeeps(p: Params, s: State, ever: set<nat>, loc: nat, e: Element, epoch: bool)
    requires Inv(p, s, ever) && loc in p.Locs(e) && loc < p.size
    requires (forall i | i in ever && i < |s.table| && i != loc :: s.table[i] != e) && (e == DEFAULT ==> First(p, ever, loc))
    ensures Inv(p, Put(s, loc, e, epoch), ever + {loc})
    ensures s.table[loc] != e && loc in ever ==> Absent(Put(s, loc, e, epoch), ever + {loc}, s.table[loc])
  {
    var s', ever' := Put(s, loc, e, epoch), ever + {loc};
    forall i | 0 <= i < p.size ensures SlotOk(p, s', ever', i) {
      assert SlotOk(p, s, ever, i);
    }
  }

  // ----- what is kept -----

  function KeptSlots(s: State): set<nat>
    requires |s.gone| == |s.table|
  {
    set i | 0 <= i < |s.table| && !s.gone[i]
  }

  ghost function Kept(s: State): set<Element>
    requires |s.gone| == |s.table|
  {
    set i | i in KeptSlots(s) :: s.table[i]
  }

  lemma KeptIsEver(p: Params, s: State, ever: set<nat>, i: nat)
    requires Inv(p, s, ever) && i < p.size && !s.gone[i]
    ensures i in ever
  {
    assert SlotOk(p, s, ever, i);
  }

  lemma InKept(s: State, x: Element)
    requires |s.gone| == |s.table|
    ensures x in Kept(s) <==> exists i | 0 <= i < |s.table| :: !s.gone[i] && s.table[i] == x
  {
    if i :| 0 <= i < |s.table| && !s.gone[i] && s.table[i] == x {
      assert i in KeptSlots(s);
    }
  }

  /** Filling a discardable slot adds the element and loses none that was kept. */
  lemma PutFreeKept(p: Params, s: State, ever: set<nat>, loc: nat, e: Element, epoch: bool)
    requires Inv(p, s, ever) && loc < p.size && s.gone[loc]
    ensures Kept(Put(s, loc, e, epoch)) == Kept(s) + {e}
  {
    var s' := Put(s, loc, e, epoch);
    forall x ensures x in Kept(s') <==> x in Kept(s) + {e} {
      InKept(s, x);
      InKept(s', x);
      if x in Kept(s) {
        var i :| 0 <= i < |s.table| && !s.gone[i] && s.table[i] == x;
        assert !s'.gone[i] && s'.table[i] == x;
      }
      assert !s'.gone[loc] && s'.table[loc] == e;
    }
  }

  /** Taking the place of a kept element swaps the two in what is kept. */
  lemma PutKeptKept(p: Params, s: State, ever: set<nat>, loc: nat, e: Element, epoch: bool)
    requires Inv(p, s, ever) && loc < p.size && !s.gone[loc] && Absent(s, ever, e)
    ensures s.table[loc] in Kept(s) && Kept(Put(s, loc, e, epoch)) == Kept(s) - {s.table[loc]} + {e}
  {
    var s', y := Put(s, loc, e, epoch), s.table[loc];
    KeptIsEver(p, s, ever, loc);
    InKept(s, y);
    forall x ensures x in Kept(s') <==> x in Kept(s) - {y} + {e} {
      InKept(s, x);
      InKept(s', x);
      if x in Kept(s') && x != e {
        var i :| 0 <= i < |s.table| && !s'.gone[i] && s'.table[i] == x;
        KeptIsEver(p, s, ever, i);
        assert !s.gone[i] && s.table[i] == x;
      }
      if x in Kept(s) && x != y {
        var i :| 0 <= i < |s.table| && !s.gone[i] && s.table[i] == x;
        assert !s'.gone[i] && s'.table[i] == x;
      }
      assert !s'.gone[loc] && s'.table[loc] == e;
    }
  }

  // ----- the insertion loop -----

  /** The first of the positions whose slot may be overwritten, or their number. */
  function FirstFree(locs: seq<nat>, gone: seq<bool>): (r: nat)
    requires forall j | 0 <= j < |locs| :: locs[j] < |gone|
    ensures r <= |locs| && (forall j | 0 <= j < r :: !gone[locs[j]]) && (r < |locs| ==> gone[locs[r]])
  {
    if locs == [] || gone[locs[0]] then 0 else 1 + FirstFree(locs[1..], gone)
  }

  function NextLoc(locs: seq<nat>, last: int): nat
    requires |locs| == 8
  {
    locs[(1 + IndexOf(locs, last)) % 8]
  }

  /** The slot to overwrite, if one of the eight may be; otherwise `p.size`. */
  function FreeLoc(p: Params, s: State, e: Element): (loc: nat)
    requires p.Ok() && s.Sized(p)
    ensures loc <= p.size && (loc < p.size ==> loc in p.Locs(e) && s.gone[loc])
    ensures loc == p.size ==> forall k | 0 <= k < 8 :: !s.gone[p.Locs(e)[k]]
  {
    var k := FirstFree(p.Locs(e), s.gone);
    if k < 8 then p.Locs(e)[k] else p.size
  }

  /** The slot to trade places with. */
  function TradeLoc(p: Params, s: State, e: Element, last: int): (loc: nat)
    requires p.Ok() && s.Sized(p) && FreeLoc(p, s, e) == p.size
    ensures loc < p.size && loc in p.Locs(e) && !s.gone[loc]
  {
    var k := (1 + IndexOf(p.Locs(e), last)) % 8;
    assert p.Locs(e)[k] == NextLoc(p.Locs(e), last) && !s.gone[p.Locs(e)[k]];
    NextLoc(p.Locs(e), last)
  }

  /** The table afterwards, the item that left it, and whether that item was dropped for lack of a free slot. */
  datatype Outcome = Outcome(s: State, dropped: Element, full: bool)

  datatype Turn = Done(o: Outcome) | More(s: State, e: Element, epoch: bool, last: int)

  /** One turn: fill a discardable slot, or trade places with an element, which is then in hand. */
  function TakeTurn(p: Params, s: State, e: Element, epoch: bool, last: int): (t: Turn)
    requires p.Ok() && s.Sized(p)
    ensures if t.Done? then t.o.s.Sized(p) else t.s.Sized(p)
  {
    if FreeLoc(p, s, e) < p.size then
      Done(Outcome(Put(s, FreeLoc(p, s, e), e, epoch), s.table[FreeLoc(p, s, e)], false))
    else
      var loc := TradeLoc(p, s, e, last);
      More(Put(s, loc, e, epoch), s.table[loc], s.recent[loc], loc)
  }

  /** Up to `depth` turns; an element still in hand then is dropped. */
  function Settle(p: Params, s: State, e: Element, epoch: bool, last: int, depth: nat): (o: Outcome)
    requires p.Ok() && s.Sized(p)
    ensures o.s.Sized(p)
    decreases depth
  {
    if depth == 0 then Outcome(s, e, true)
    else
      match TakeTurn(p, s, e, epoch, last)
      case Done(o) => o
      case More(s', e', epoch', last') => Settle(p, s', e', epoch', last', depth - 1)
  }

  lemma {:induction false} SettleNone(p: Params, s: State, e: Element, epoch: bool, last: int, depth: nat)
    requires p.Ok() && s.Sized(p) && depth == 0
    ensures Settle(p, s, e, epoch, last, depth) == Outcome(s, e, true)
  {
  }

  lemma {:induction false} SettleStep(p: Params, s: State, e: Element, epoch: bool, last: int, depth: nat, less: nat, t: Turn)
    requires p.Ok() && s.Sized(p) && depth == less + 1 && t == TakeTurn(p, s, e, epoch, last)
    ensures Settle(p, s, e, epoch, last, depth) == if t.Done? then t.o else Settle(p, t.s, t.e, t.epoch, t.last, less)
  {
  }

  /** A position is free only where all earlier ones are kept. */
  lemma FreeIsFirst(p: Params, s: State, ever: set<nat>, e: Element)
    requires Inv(p, s, ever) && e == DEFAULT && FreeLoc(p, s, e) < p.size
    ensures First(p, ever, FreeLoc(p, s, e))
  {
    var locs := p.Locs(e);
    forall j | 0 <= j < FirstFree(locs, s.gone) ensures locs[j] in ever {
      KeptIsEver(p, s, ever, locs[j]);
    }
  }

  lemma TradeIsFirst(p: Params, s: State, ever: set<nat>, e: Element, loc: nat)
    requires Inv(p, s, ever) && e == DEFAULT && FreeLoc(p, s, e) == p.size
    ensures First(p, ever, loc)
  {
    var locs := p.Locs(e);
    forall j | 0 <= j < 8 ensures locs[j] in ever {
      KeptIsEver(p, s, ever, locs[j]);
    }
  }

  lemma TradeKeeps(p: Params, s: State, ever: set<nat>, loc: nat, e: Element, epoch: bool)
    requires Inv(p, s, ever) && Absent(s, ever, e) && loc < p.size && loc in p.Locs(e) && !s.gone[loc]
    requires e == DEFAULT ==> First(p, ever, loc)
    ensures
      var s', x := Put(s, loc, e, epoch), s.table[loc];
      Inv(p, s', ever) && Absent(s', ever, x) && Kept(s') + {x} == Kept(s) + {e}
  {
    KeptIsEver(p, s, ever, loc);
    PutKeeps(p, s, ever, loc, e, epoch);
    assert ever + {loc} == ever;
    PutKeptKept(p, s, ever, loc, e, epoch);
    assert Kept(s) - {s.table[loc]} + {e} + {s.table[loc]} == Kept(s) + {e};
  }

  /** What one turn does to the invariant and to what is kept. */
  lemma TurnKeeps(p: Params, s: State, ever: set<nat>, e: Element, epoch: bool, last: int, t: Turn) returns (ever': set<nat>)
    requires Inv(p, s, ever) && Absent(s, ever, e) && t == TakeTurn(p, s, e, epoch, last)
    ensures ever <= ever'
    ensures t.Done? ==> Inv(p, t.o.s, ever') && !t.o.full && Kept(t.o.s) == Kept(s) + {e}
    ensures t.More? ==> Inv(p, t.s, ever') && Absent(t.s, ever', t.e) && Kept(t.s) + {t.e} == Kept(s) + {e}
  {
    if FreeLoc(p, s, e) < p.size {
      var loc := FreeLoc(p, s, e);
      if e == DEFAULT {
        FreeIsFirst(p, s, ever, e);
      }
      PutKeeps(p, s, ever, loc, e, epoch);
      PutFreeKept(p, s, ever, loc, e, epoch);
      ever' := ever + {loc};
    } else {
      var loc := TradeLoc(p, s, e, last);
      if e == DEFAULT {
        TradeIsFirst(p, s, ever, e, loc);
      }
      TradeKeeps(p, s, ever, loc, e, epoch);
      ever' := ever;
    }
  }

  lemma {:induction false} FirstTurn(p: Params, s: State, ever: set<nat>, e: Element, epoch: bool, last: int, depth: nat, o: Outcome)
    returns (t: Turn, ever': set<nat>, less: nat)
    requires Inv(p, s, ever) && Absent(s, ever, e) && o == Settle(p, s, e, epoch, last, depth) && depth > 0
    ensures ever <= ever' && less + 1 == depth
    ensures t.Done? ==> Inv(p, o.s, ever') && !o.full && Kept(o.s) == Kept(s) + {e}
    ensures t.More? ==> Inv(p, t.s, ever') && Absent(t.s, ever', t.e) && Kept(t.s) + {t.e} == Kept(s) + {e}
    ensures t.More? ==> o == Settle(p, t.s, t.e, t.epoch, t.last, less)
  {
    t, less := TakeTurn(p, s, e, epoch, last), depth - 1;
    SettleStep(p, s, e, epoch, last, depth, less, t);
    ever' := TurnKeeps(p, s, ever, e, epoch, last, t);
  }

  /** Every kept slot's content still sits at one of its own positions, whatever the loop did. */
  lemma {:induction false} SettleKeeps(p: Params, s: State, ever: set<nat>, e: Element, epoch: bool, last: int, depth: nat, o: Outcome)
    returns (ever': set<nat>)
    requires Inv(p, s, ever) && Absent(s, ever, e) && o == Settle(p, s, e, epoch, last, depth)
    ensures ever <= ever' && Inv(p, o.s, ever')
    decreases depth
  {
    ever' := ever;
    if depth > 0 {
      var t, less;
      t, ever', less := FirstTurn(p, s, ever, e, epoch, last, depth, o);
      if t.More? {
        ever' := SettleKeeps(p, t.s, ever', t.e, t.epoch, t.last, less, o);
      }
    }
  }

  /** What happened to the kept elements: one came, and at most one went. */
  ghost predicate LosesOne(s: State, e: Element, o: Outcome)
    requires |s.gone| == |s.table| && |o.s.gone| == |o.s.table|
  {
    if o.full then o.dropped in Kept(s) + {e} && Kept(o.s) == Kept(s) + {e} - {o.dropped} else Kept(o.s) == Kept(s) + {e}
  }

  /** At most one kept element is lost, and only when no free slot was met: then it is the last one displaced. */
  lemma {:induction false} SettleLosesOne(p: Params, s: State, ever: set<nat>, e: Element, epoch: bool, last: int, depth: nat, o: Outcome)
    requires Inv(p, s, ever) && Absent(s, ever, e) && o == Settle(p, s, e, epoch, last, depth)
    ensures LosesOne(s, e, o)
    decreases depth
  {
    if depth == 0 {
      DropLosesOne(p, s, ever, e);
    } else {
      var t, ever', less := FirstTurn(p, s, ever, e, epoch, last, depth, o);
      if t.More? {
        SettleLosesOne(p, t.s, ever', t.e, t.epoch, t.last, less, o);
        StillLosesOne(s, e, t.s, t.e, o);
      }
    }
  }

  lemma DropLosesOne(p: Params, s: State, ever: set<nat>, e: Element)
    requires Inv(p, s, ever) && Absent(s, ever, e)
    ensures LosesOne(s, e, Outcome(s, e, true))
  {
    NotKept(p, s, ever, e);
    assert Kept(s) + {e} - {e} == Kept(s);
  }

  lemma StillLosesOne(s: State, e: Element, s': State, x: Element, o: Outcome)
    requires |s.gone| == |s.table| && |s'.gone| == |s'.table| && |o.s.gone| == |o.s.table|
    requires Kept(s') + {x} == Kept(s) + {e} && LosesOne(s', x, o)
    ensures LosesOne(s, e, o)
  {
  }

  /** An item that had to make room without being kept came from a discardable slot. */
  ghost predicate FromFree(s: State, o: Outcome)
    requires |s.gone| == |s.table|
  {
    !o.full ==> exists i | 0 <= i < |s.table| :: s.gone[i] && s.table[i] == o.dropped
  }

  lemma {:induction false} SettleDropsFree(p: Params, s: State, e: Element, epoch: bool, last: int, depth: nat, o: Outcome)
    requires p.Ok() && s.Sized(p) && o == Settle(p, s, e, epoch, last, depth)
    ensures FromFree(s, o)
    decreases depth
  {
    if depth > 0 {
      var t := TakeTurn(p, s, e, epoch, last);
      SettleStep(p, s, e, epoch, last, depth, depth - 1, t);
      if t.More? {
        SettleDropsFree(p, t.s, t.e, t.epoch, t.last, depth - 1, o);
        StillFree(s, TradeLoc(p, s, e, last), e, epoch, o);
      }
    }
  }

  lemma StillFree(s: State, loc: nat, e: Element, epoch: bool, o: Outcome)
    requires loc < |s.table| == |s.gone| == |s.recent| && !s.gone[loc] && FromFree(Put(s, loc, e, epoch), o)
    ensures FromFree(s, o)
  {
    if !o.full {
      var s' := Put(s, loc, e, epoch);
      var i :| 0 <= i < |s'.table| && s'.gone[i] && s'.table[i] == o.dropped;
      assert s.gone[i] && s.table[i] == o.dropped;
    }
  }

  lemma NotKept(p: Params, s: State, ever: set<nat>, e: Element)
    requires Inv(p, s, ever) && Absent(s, ever, e)
    ensures e !in Kept(s)
  {
    InKept(s, e);
    forall i | 0 <= i < |s.table| && !s.gone[i] ensures s.table[i] != e {
      KeptIsEver(p, s, ever, i);
    }
  }

  ghost predicate Conserves(t: seq<Element>, e: Element, o: Outcome) {
    multiset(o.s.table) + multiset{o.dropped} == multiset(t) + multiset{e}
  }

  lemma StillConserves(t: seq<Element>, loc: nat, e: Element, o: Outcome)
    requires loc < |t| && Conserves(t[loc := e], t[loc], o)
    ensures Conserves(t, e, o)
  {
    Replaced(t, loc, e);
  }

  lemma TurnConserves(p: Params, s: State, e: Element, epoch: bool, last: int, t: Turn, o: Outcome)
    requires p.Ok() && s.Sized(p) && t == TakeTurn(p, s, e, epoch, last)
    requires if t.Done? then o == t.o else Conserves(t.s.table, t.e, o)
    ensures Conserves(s.table, e, o)
  {
    if t.Done? {
      Replaced(s.table, FreeLoc(p, s, e), e);
    } else {
      StillConserves(s.table, TradeLoc(p, s, e, last), e, o);
    }
  }

  /** Nothing is duplicated or lost beyond the one dropped item. */
  lemma {:induction false} SettleConserves(p: Params, s: State, e: Element, epoch: bool, last: int, depth: nat, o: Outcome)
    requires p.Ok() && s.Sized(p) && o == Settle(p, s, e, epoch, last, depth)
    ensures Conserves(s.table, e, o)
    decreases depth
  {
    if depth > 0 {
      var t := TakeTurn(p, s, e, epoch, last);
      SettleStep(p, s, e, epoch, last, depth, depth - 1, t);
      if t.More? {
        SettleConserves(p, t.s, t.e, t.epoch, t.last, depth - 1, o);
      }
      TurnConserves(p, s, e, epoch, last, t, o);
    }
  }

  lemma Replaced(t: seq<Element>, i: nat, e: Element)
    requires i < |t|
    ensures multiset(t[i := e]) + multiset{t[i]} == multiset(t) + multiset{e}
  {
  }

  // ----- epochs -----

  function RecentSlots(s: State): set<nat>
    requires |s.gone| == |s.table| == |s.recent|
  {
    set i | 0 <= i < |s.table| && !s.gone[i] && s.recent[i]
  }

  function OldSlots(s: State): set<nat>
    requires |s.gone| == |s.table| == |s.recent|
  {
    set i | 0 <= i < |s.table| && !s.gone[i] && !s.recent[i]
  }

  function One(b: bool): nat { if b then 1 else 0 }

  lemma PutCounts(s: State, loc: nat, e: Element, epoch: bool)
    requires loc < |s.table| == |s.gone| == |s.recent|
    ensures
      var s' := Put(s, loc, e, epoch);
      && |RecentSlots(s')| + One(!s.gone[loc] && s.recent[loc]) == |RecentSlots(s)| + One(epoch)
      && |OldSlots(s')| + One(!s.gone[loc] && !s.recent[loc]) == |OldSlots(s)| + One(!epoch)
  {
    var s' := Put(s, loc, e, epoch);
    OneMember(RecentSlots(s), RecentSlots(s'), loc);
    OneMember(OldSlots(s), OldSlots(s'), loc);
  }

  lemma OneMember(a: set<nat>, b: set<nat>, x: nat)
    requires forall y | y != x :: y in a <==> y in b
    ensures |b| + One(x in a) == |a| + One(x in b)
  {
    assert a - {x} == b - {x};
    assert |a - {x}| + One(x in a) == |a| && |b - {x}| + One(x in b) == |b|;
  }

  ghost predicate AddsOne(s: State, epoch: bool, s': State)
    requires |s.gone| == |s.table| == |s.recent| && |s'.gone| == |s'.table| == |s'.recent|
  {
    |RecentSlots(s')| <= |RecentSlots(s)| + One(epoch) && |OldSlots(s')| <= |OldSlots(s)| + One(!epoch)
  }

  lemma StillAddsOne(s: State, loc: nat, e: Element, epoch: bool, s': State)
    requires loc < |s.table| == |s.gone| == |s.recent| && |s'.gone| == |s'.table| == |s'.recent| && !s.gone[loc]
    requires AddsOne(Put(s, loc, e, epoch), s.recent[loc], s')
    ensures AddsOne(s, epoch, s')
  {
    PutCounts(s, loc, e, epoch);
  }

  /** An insertion adds at most one kept slot, in the epoch of the inserted element. */
  lemma {:induction false} SettleCounts(p: Params, s: State, e: Element, epoch: bool, last: int, depth: nat, o: Outcome)
    requires p.Ok() && s.Sized(p) && o == Settle(p, s, e, epoch, last, depth)
    ensures AddsOne(s, epoch, o.s)
    decreases depth
  {
    if depth > 0 {
      var t := TakeTurn(p, s, e, epoch, last);
      SettleStep(p, s, e, epoch, last, depth, depth - 1, t);
      if t.Done? {
        PutCounts(s, FreeLoc(p, s, e), e, epoch);
      } else {
        SettleCounts(p, t.s, t.e, t.epoch, t.last, depth - 1, o);
        StillAddsOne(s, TradeLoc(p, s, e, last), e, epoch, o.s);
      }
    }
  }

  /** Ages the epochs: what was not recent may go, what was recent no longer is. */
  function Aged(s: State): (a: State)
    requires |s.gone| == |s.table| == |s.recent|
    ensures a.table == s.table && |a.gone| == |s.gone| && |a.recent| == |s.recent|
  {
    State(s.table, seq(|s.gone|, i requires 0 <= i < |s.gone| => s.gone[i] || !s.recent[i]), seq(|s.recent|, _ => false))
  }

  /** `epoch_check`: the state and the new heuristic counter. */
  function EpochChecked(p: Params, s: State, counter: nat): (State, nat)
    requires |s.gone| == |s.table| == |s.recent|
  {
    if counter != 0 then (s, counter - 1)
    else
      var unused := |RecentSlots(s)|;
      if unused >= p.epoch_size then (Aged(s), p.epoch_size)
      else (s, Max(1, Max(p.epoch_size / 16, p.epoch_size - unused)))
  }

  function EpochLimit(p: Params): nat {
    p.epoch_size + Max(1, p.epoch_size / 16)
  }

  /** The recent epoch cannot outgrow its limit before the next scan, and neither epoch exceeds it. */
  ghost predicate Loaded(p: Params, s: State, counter: nat, room: nat)
    requires |s.gone| == |s.table| == |s.recent|
  {
    |RecentSlots(s)| + counter + room <= EpochLimit(p) && |OldSlots(s)| <= EpochLimit(p)
  }

  lemma EpochCheckKeeps(p: Params, s: State, ever: set<nat>, counter: nat)
    requires Inv(p, s, ever) && Loaded(p, s, counter, 0)
    ensures
      var (s', counter') := EpochChecked(p, s, counter);
      && Inv(p, s', ever) && Loaded(p, s', counter', 1) && Kept(s') <= Kept(s)
      && forall i | i in RecentSlots(s) :: !s'.gone[i] && s'.table[i] == s.table[i]
  {
    var (s', counter') := EpochChecked(p, s, counter);
    if counter == 0 && |RecentSlots(s)| >= p.epoch_size {
      assert RecentSlots(s') == {} && OldSlots(s') == RecentSlots(s);
      forall i | 0 <= i < p.size ensures SlotOk(p, s', ever, i) {
        assert SlotOk(p, s, ever, i);
      }
      forall x | x in Kept(s') ensures x in Kept(s) {
        InKept(s', x);
        var i :| 0 <= i < |s'.table| && !s'.gone[i] && s'.table[i] == x;
        assert i in KeptSlots(s);
      }
    }
  }

  // ----- a whole insertion -----

  /** The first of the positions that holds the element, or their number. */
  function FirstMatch(locs: seq<nat>, table: seq<Element>, e: Element): (r: nat)
    requires forall j | 0 <= j < |locs| :: locs[j] < |table|
    ensures r <= |locs| && (forall j | 0 <= j < r :: table[locs[j]] != e) && (r < |locs| ==> table[locs[r]] == e)
  {
    if locs == [] || table[locs[0]] == e then 0 else 1 + FirstMatch(locs[1..], table, e)
  }

  const INVALID: int := 0xffff_ffff

  /** `insert` after its epoch check: refresh a present element, or settle an absent one. */
  function Inserted(p: Params, s: State, e: Element, depth: nat): State
    requires p.Ok() && s.Sized(p)
  {
    var k := FirstMatch(p.Locs(e), s.table, e);
    if k < 8 then Put(s, p.Locs(e)[k], e, true) else Settle(p, s, e, true, INVALID, depth).s
  }

  /** The first match is the one kept slot of the element, if there is one. */
  lemma MatchIsOnly(p: Params, s: State, ever: set<nat>, e: Element, k: nat, i: nat)
    requires Inv(p, s, ever) && k == FirstMatch(p.Locs(e), s.table, e) && k < 8 && i in ever && s.table[i] == e
    ensures i == p.Locs(e)[k]
  {
    var locs := p.Locs(e);
    assert SlotOk(p, s, ever, i);
    assert SlotOk(p, s, ever, locs[k]);
    assert IndexOf(locs, i) >= k;
  }

  lemma MatchIsFirst(p: Params, s: State, ever: set<nat>, k: nat)
    requires Inv(p, s, ever) && k == FirstMatch(p.Locs(DEFAULT), s.table, DEFAULT) && k < 8
    ensures First(p, ever, p.Locs(DEFAULT)[k])
  {
    var locs := p.Locs(DEFAULT);
    forall j | 0 <= j < k ensures locs[j] in ever {
      assert SlotOk(p, s, ever, locs[j]);
    }
    assert IndexOf(locs, locs[k]) <= k;
  }

  lemma RefreshKeeps(p: Params, s: State, ever: set<nat>, e: Element, k: nat, loc: nat)
    requires Inv(p, s, ever) && k == FirstMatch(p.Locs(e), s.table, e) && k < 8 && loc == p.Locs(e)[k]
    ensures Inv(p, Put(s, loc, e, true), ever + {loc}) && Kept(Put(s, loc, e, true)) == Kept(s) + {e}
    ensures AddsOne(s, true, Put(s, loc, e, true))
  {
    forall i | i in ever && i < |s.table| && i != loc ensures s.table[i] != e {
      if s.table[i] == e {
        MatchIsOnly(p, s, ever, e, k, i);
      }
    }
    if e == DEFAULT {
      MatchIsFirst(p, s, ever, k);
    }
    PutKeeps(p, s, ever, loc, e, true);
    PutCounts(s, loc, e, true);
    if s.gone[loc] {
      PutFreeKept(p, s, ever, loc, e, true);
    } else {
      InKept(s, e);
      assert Put(s, loc, e, true).table == s.table && Put(s, loc, e, true).gone == s.gone;
    }
  }

  /** What an insertion does: the invariant stays, one element joins the kept ones, at most one leaves them. */
  lemma InsertKeeps(p: Params, s: State, ever: set<nat>, e: Element, depth: nat) returns (ever': set<nat>)
    requires Inv(p, s, ever)
    ensures ever <= ever' && Inv(p, Inserted(p, s, e, depth), ever') && AddsOne(s, true, Inserted(p, s, e, depth))
    ensures Found(p, s, e) ==> Kept(Inserted(p, s, e, depth)) == Kept(s) + {e} && Inserted(p, s, e, depth).table == s.table
    ensures !Found(p, s, e) ==>
      var o := Settle(p, s, e, true, INVALID, depth);
      Inserted(p, s, e, depth) == o.s && LosesOne(s, e, o) && Conserves(s.table, e, o) && FromFree(s, o)
  {
    var locs := p.Locs(e);
    var k := FirstMatch(locs, s.table, e);
    if k < 8 {
      RefreshKeeps(p, s, ever, e, k, locs[k]);
      ever' := ever + {locs[k]};
    } else {
      FoundMeans(p, s, ever, e);
      var o := Settle(p, s, e, true, INVALID, depth);
      ever' := SettleKeeps(p, s, ever, e, true, INVALID, depth, o);
      SettleLosesOne(p, s, ever, e, true, INVALID, depth, o);
      SettleConserves(p, s, e, true, INVALID, depth, o);
      SettleDropsFree(p, s, e, true, INVALID, depth, o);
      SettleCounts(p, s, e, true, INVALID, depth, o);
    }
  }

  /** A fresh table: every slot holds the default element and may be overwritten. */
  function Fresh(p: Params): State {
    State(seq(p.size, _ => DEFAULT), seq(p.size, _ => true), seq(p.size, _ => false))
  }

  /** The default element is the exception: a fresh table is found to contain it, and no other element. */
  lemma FreshContainsDefault(p: Params, e: Element)
    requires p.Ok()
    ensures Inv(p, Fresh(p), {}) && Kept(Fresh(p)) == {} && (Found(p, Fresh(p), e) <==> e == DEFAULT)
  {
    assert Fresh(p).table[p.Locs(e)[0]] == DEFAULT;
  }

  lemma SlotsSplit(s: State)
    requires |s.gone| == |s.table| == |s.recent|
    ensures |KeptSlots(s)| == |RecentSlots(s)| + |OldSlots(s)|
  {
    assert KeptSlots(s) == RecentSlots(s) + OldSlots(s) && RecentSlots(s) !! OldSlots(s);
  }

  /** With epochs of 45% of the table, from 32 slots on some slots are always free: the load stays below 96%. */
  lemma LoadIsBounded(p: Params, s: State, counter: nat)
    requires s.Sized(p) && Loaded(p, s, counter, 0) && p.epoch_size == Max(1, 45 * p.size / 100)
    ensures |KeptSlots(s)| <= 2 * EpochLimit(p)
    ensures p.size >= 32 ==> 100 * |KeptSlots(s)| < 96 * p.size
  {
    SlotsSplit(s);
  }
}
