/** The class `cache` and its packed flags (src/cuckoocache.h). */
module CuckooCache {
  import opened Arith
  import opened Powers
  import opened CuckooModel

  /** A byte as the set of its one bits. */
  type ByteBits = set<nat>
  const ALL_BITS: ByteBits := {0, 1, 2, 3, 4, 5, 6, 7}

  class BitPackedFlags {
    const mem: array<ByteBits>
    ghost const size: nat

    ghost predicate Valid() {
      mem.Length == (size + 7) / 8
    }

    ghost function Flags(): (f: seq<bool>)
      requires Valid()
      reads mem
      ensures |f| == size && forall i | 0 <= i < size :: f[i] == (i % 8 in mem[i / 8])
    {
      seq(size, i requires 0 <= i < size reads mem => i % 8 in mem[i / 8])
    }

    constructor (size: nat)
      ensures Valid() && fresh(mem) && this.size == size && forall i | 0 <= i < size :: Flags()[i]
    {
      this.size := size;
      mem := new ByteBits[(size + 7) / 8](_ => ALL_BITS);
    }

    method BitSet(s: nat)
      requires Valid() && s < size
      modifies mem
      ensures Flags() == old(Flags())[s := true]
    {
      mem[s / 8] := mem[s / 8] + {s % 8};
    }

    method BitUnset(s: nat)
      requires Valid() && s < size
      modifies mem
      ensures Flags() == old(Flags())[s := false]
    {
      mem[s / 8] := mem[s / 8] - {s % 8};
    }

    method BitIsSet(s: nat) returns (r: bool)
      requires Valid() && s < size
      ensures r == Flags()[s]
    {
      r := s % 8 in mem[s / 8];
    }
  }

  class Cache {
    const hash: (nat, Element) -> nat
    const size: nat
    const epoch_size: nat
    const depth_limit: nat
    const table: array<Element>
    const collection_flags: BitPackedFlags
    const epoch_flags: array<bool>
    var epoch_heuristic_counter: nat
    /** The slots that were kept at some time. */
    ghost var ever: set<nat>

    ghost function P(): Params {
      Params(hash, size, epoch_size)
    }

    ghost predicate Shape() {
      && P().Ok() && table.Length == epoch_flags.Length == size
      && collection_flags.Valid() && collection_flags.size == size
      && table as object != epoch_flags as object && table as object != collection_flags.mem as object
      && epoch_flags as object != collection_flags.mem as object
    }

    ghost function Model(): (s: State)
      requires Shape()
      reads table, collection_flags.mem, epoch_flags
      ensures s.Sized(P())
    {
      State(table[..], collection_flags.Flags(), epoch_flags[..])
    }

    ghost predicate Valid()
      reads this, table, collection_flags.mem, epoch_flags
    {
      Shape() && Inv(P(), Model(), ever) && Loaded(P(), Model(), epoch_heuristic_counter, 0)
    }

    /** `setup`, with the depth limit it derives from the wanted size as a parameter. */
    constructor (hash: (nat, Element) -> nat, depth_limit: nat)
      ensures Valid() && Model() == Fresh(P()) && size == Pow2(depth_limit) && epoch_size == Max(1, 45 * size / 100)
      ensures fresh(table) && fresh(collection_flags.mem) && fresh(epoch_flags)
    {
      this.hash, this.depth_limit := hash, depth_limit;
      var n := Pow2(depth_limit);
      size := n;
      epoch_size := Max(1, 45 * n / 100);
      epoch_heuristic_counter := Max(1, 45 * n / 100);
      table := new Element[n](_ => DEFAULT);
      collection_flags := new BitPackedFlags(n);
      epoch_flags := new bool[n](_ => false);
      ever := {};
      new;
      FreshContainsDefault(P(), DEFAULT);
      assert Model() == Fresh(P());
      assert RecentSlots(Model()) == {} && OldSlots(Model()) == {};
    }

    method AllowErase(n: nat)
      requires Shape() && n < size
      modifies collection_flags.mem
      ensures Model() == old(Model()).(gone := old(Model()).gone[n := true])
    {
      collection_flags.BitSet(n);
    }

    /** Counts the kept slots of the recent epoch. */
    method CountRecent() returns (epoch_unused_count: nat)
      requires Shape()
      ensures epoch_unused_count == |RecentSlots(Model())|
    {
      ghost var all := RecentSlots(Model());
      epoch_unused_count := 0;
      for i := 0 to size
        invariant epoch_unused_count == |Below(all, i)|
      {
        var isSet := collection_flags.BitIsSet(i);
        BelowStep(all, i);
        if epoch_flags[i] && !isSet {
          epoch_unused_count := epoch_unused_count + 1;
        }
      }
      assert Below(all, size) == all;
    }

    method Age()
      requires Shape()
      modifies collection_flags.mem, epoch_flags
      ensures Model() == Aged(old(Model()))
    {
      ghost var s := Model();
      for i := 0 to size
        invariant Model().table == s.table
        invariant forall j | 0 <= j < i :: Model().gone[j] == (s.gone[j] || !s.recent[j]) && !Model().recent[j]
        invariant forall j | i <= j < size :: Model().gone[j] == s.gone[j] && Model().recent[j] == s.recent[j]
      {
        if epoch_flags[i] {
          epoch_flags[i] := false;
        } else {
          collection_flags.BitSet(i);
        }
      }
      assert Model() == Aged(s);
    }

    method EpochCheck()
      requires Shape()
      modifies this`epoch_heuristic_counter, collection_flags.mem, epoch_flags
      ensures (Model(), epoch_heuristic_counter) == EpochChecked(P(), old(Model()), old(epoch_heuristic_counter))
    {
      if epoch_heuristic_counter != 0 {
        epoch_heuristic_counter := epoch_heuristic_counter - 1;
        return;
      }
      var epoch_unused_count := CountRecent();
      if epoch_unused_count >= epoch_size {
        Age();
        epoch_heuristic_counter := epoch_size;
      } else {
        epoch_heuristic_counter := Max(1, Max(epoch_size / 16, epoch_size - epoch_unused_count));
      }
    }

    method Write(loc: nat, e: Element, epoch: bool)
      requires Shape() && loc < size
      modifies table, collection_flags.mem, epoch_flags
      ensures Model() == Put(old(Model()), loc, e, epoch)
    {
      table[loc] := e;
      collection_flags.BitUnset(loc);
      epoch_flags[loc] := epoch;
    }

    method FindElement(locs: seq<nat>, e: Element) returns (k: nat)
      requires Shape() && locs == P().Locs(e)
      ensures k == FirstMatch(locs, Model().table, e)
    {
      k := 0;
      while k < 8 && table[locs[k]] != e
        invariant k <= 8 && forall j | 0 <= j < k :: table[locs[j]] != e
      {
        k := k + 1;
      }
      FirstMatchUnique(locs, Model().table, e, k);
    }

    method FindFree(locs: seq<nat>) returns (k: nat)
      requires Shape() && |locs| == 8 && forall j | 0 <= j < 8 :: locs[j] < size
      ensures k == FirstFree(locs, Model().gone)
    {
      k := 0;
      while k < 8
        invariant k <= 8 && forall j | 0 <= j < k :: !Model().gone[locs[j]]
      {
        var isSet := collection_flags.BitIsSet(locs[k]);
        if isSet {
          FirstFreeUnique(locs, Model().gone, k);
          return;
        }
        k := k + 1;
      }
      FirstFreeUnique(locs, Model().gone, k);
    }

    method ComputeHashes(e: Element) returns (locs: seq<nat>)
      requires P().Ok()
      ensures locs == P().Locs(e)
    {
      locs := seq(8, k requires 0 <= k => hash(k, e) % size);
    }

    /** What is left to do gives `o`. */
    ghost predicate Pending(o: Outcome, e: Element, epoch: bool, last: int, depth: nat)
      requires Shape()
      reads this, table, collection_flags, collection_flags.mem, epoch_flags
    {
      o == Settle(P(), Model(), e, epoch, last, depth)
    }

    /** One turn: fill a free slot, or trade places. */
    method Turn(e: Element, epoch: bool, last: int, ghost depth: nat, ghost o: Outcome)
      returns (done: bool, e': Element, epoch': bool, last': int, ghost depth': nat)
      requires Shape() && Pending(o, e, epoch, last, depth) && depth > 0
      modifies table, collection_flags.mem, epoch_flags
      ensures depth' + 1 == depth && if done then Model() == o.s else Pending(o, e', epoch', last', depth')
    {
      ghost var s := Model();
      done, e', epoch', last', depth' := false, e, epoch, last, depth - 1;
      SettleStep(P(), s, e, epoch, last, depth, depth', TakeTurn(P(), s, e, epoch, last));
      var locs := ComputeHashes(e);
      var k := FindFree(locs);
      if k < 8 {
        Write(locs[k], e, epoch);
        done := true;
      } else {
        var loc := NextLoc(locs, last);
        assert loc == TradeLoc(P(), s, e, last);
        e', epoch', last' := table[loc], epoch_flags[loc], loc;
        Trade(loc, e, epoch);
      }
    }

    /** The cuckoo loop. */
    method Relocate(e0: Element)
      requires Shape()
      modifies table, collection_flags.mem, epoch_flags
      ensures Model() == Settle(P(), old(Model()), e0, true, INVALID, depth_limit).s
    {
      ghost var o := Settle(P(), Model(), e0, true, INVALID, depth_limit);
      var e, last_epoch, last_loc: int, depth := e0, true, INVALID, 0;
      ghost var left: nat := depth_limit;
      while depth < depth_limit
        invariant left + depth == depth_limit && Pending(o, e, last_epoch, last_loc, left)
      {
        var done;
        done, e, last_epoch, last_loc, left := Turn(e, last_epoch, last_loc, left, o);
        if done {
          return;
        }
        depth := depth + 1;
      }
      SettleNone(P(), Model(), e, last_epoch, last_loc, left);
    }

    method Trade(loc: nat, e: Element, epoch: bool)
      requires Shape() && loc < size && !Model().gone[loc]
      modifies table, epoch_flags
      ensures Model() == Put(old(Model()), loc, e, epoch)
    {
      table[loc] := e;
      epoch_flags[loc] := epoch;
      assert Model().gone == old(Model().gone)[loc := false];
    }

    method Insert(e: Element)
      requires Valid()
      modifies this, table, collection_flags.mem, epoch_flags
      ensures Valid()
      ensures
        var (s, counter) := EpochChecked(P(), old(Model()), old(epoch_heuristic_counter));
        epoch_heuristic_counter == counter && Model() == Inserted(P(), s, e, depth_limit)
    {
      EpochCheckKeeps(P(), Model(), ever, epoch_heuristic_counter);
      EpochCheck();
      ghost var s := Model();
      ghost var ever' := InsertKeeps(P(), s, ever, e, depth_limit);
      var locs := ComputeHashes(e);
      var k := FindElement(locs, e);
      if k < 8 {
        collection_flags.BitUnset(locs[k]);
        epoch_flags[locs[k]] := true;
        assert Model().table == s.table[locs[k] := e];
        assert Model() == Put(s, locs[k], e, true);
      } else {
        Relocate(e);
      }
      ever := ever';
    }

    /**
     * Finds exactly the elements in the table, and the default element also in a slot that was never kept; `erase`
     * only marks the slot as discardable.
     */
    method Contains(e: Element, erase: bool) returns (found: bool)
      requires Valid()
      modifies collection_flags.mem
      ensures Valid() && Model().table == old(Model().table) && Model().recent == old(Model().recent)
      ensures found <==> !Absent(old(Model()), ever, e) || (e == DEFAULT && NeverKept(P(), ever, e))
      ensures e != DEFAULT ==> (found <==> e in Model().table)
      ensures !erase || !found ==> Model() == old(Model())
      ensures found ==>
        var k := FirstMatch(P().Locs(e), old(Model().table), e);
        k < 8 && (erase ==> Model().gone == old(Model().gone)[P().Locs(e)[k] := true])
    {
      FoundMeans(P(), Model(), ever, e);
      var locs := ComputeHashes(e);
      var k := FindElement(locs, e);
      found := k < 8;
      if found {
        assert Model().table[P().Locs(e)[k]] == e;
        if erase {
          EraseKeeps(P(), Model(), ever, epoch_heuristic_counter, locs[k]);
          AllowErase(locs[k]);
        }
      }
    }
  }

  function Below(a: set<nat>, n: nat): set<nat> {
    set j | j in a && j < n
  }

  lemma BelowStep(a: set<nat>, n: nat)
    ensures |Below(a, n + 1)| == |Below(a, n)| + One(n in a)
  {
    OneMember(Below(a, n), Below(a, n + 1), n);
  }

  lemma FirstMatchUnique(locs: seq<nat>, table: seq<Element>, e: Element, k: nat)
    requires k <= |locs| && (forall j | 0 <= j < |locs| :: locs[j] < |table|) && (forall j | 0 <= j < k :: table[locs[j]] != e)
    requires k < |locs| ==> table[locs[k]] == e
    ensures FirstMatch(locs, table, e) == k
  {
  }

  lemma FirstFreeUnique(locs: seq<nat>, gone: seq<bool>, k: nat)
    requires k <= |locs| && (forall j | 0 <= j < |locs| :: locs[j] < |gone|) && (forall j | 0 <= j < k :: !gone[locs[j]])
    requires k < |locs| ==> gone[locs[k]]
    ensures FirstFree(locs, gone) == k
  {
  }

  lemma EraseKeeps(p: Params, s: State, ever: set<nat>, counter: nat, loc: nat)
    requires Inv(p, s, ever) && Loaded(p, s, counter, 0) && loc < p.size
    ensures var s' := s.(gone := s.gone[loc := true]); Inv(p, s', ever) && Loaded(p, s', counter, 0)
  {
    var s' := s.(gone := s.gone[loc := true]);
    forall i | 0 <= i < p.size ensures SlotOk(p, s', ever, i) {
      assert SlotOk(p, s, ever, i);
    }
    assert RecentSlots(s') == RecentSlots(s) - {loc} && OldSlots(s') == OldSlots(s) - {loc};
  }
}
