/**
 * The parallel check queue (src/checkqueue.h) as a state machine. A step is one critical section, or
 * the execution of one check outside the lock. Thread 0 is the master, the others are workers.
 */
module CheckQueue {
  import opened Options
  import opened Arith
  import opened Slices

  /** A verification and the verdict it will return. */
  datatype Check = Check(id: nat, ok: bool)

  datatype Thread =
    | Outside                                           // not inside `Loop`
    | Waiting(notified: bool)                           // blocked in `cond.wait`
    | AtHead                                            // holds the lock, about to look at the queue
    | Running(left: seq<Check>, nNow: nat, fOk: bool)   // working off a batch of `nNow` checks, `left` of them to go

  datatype State = State(queue: seq<Check>, nIdle: int, nTotal: int, fAllOk: bool, nTodo: int, nBatchSize: nat,
                         threads: seq<Thread>,
                         added: multiset<Check>,        // checks added since `Wait` last returned
                         processed: multiset<Check>,    // those taken off a batch, run or skipped
                         ran: multiset<Check>)          // those actually run

  function Init(nBatchSize: nat, nWorkers: nat): State {
    State([], 0, 0, true, 0, nBatchSize, seq(nWorkers + 1, _ => Outside), multiset{}, multiset{}, multiset{})
  }

  function BatchSize(s: State): (n: nat)
    requires s.nTotal + s.nIdle + 1 > 0 && s.queue != []
    ensures 1 <= n <= |s.queue|
  {
    var share := |s.queue| / (s.nTotal + s.nIdle + 1);
    QuotientShrinks(|s.queue|, s.nTotal + s.nIdle + 1);
    Max(1, Min(s.nBatchSize, share))
  }

  function Put(s: State, t: nat, x: Thread): State
    requires t < |s.threads|
  {
    s.(threads := s.threads[t := x])
  }

  /** `Loop` from the head of its inner while, in the same critical section. */
  function Head(s: State, t: nat): State
    requires t < |s.threads| && s.nTotal + s.nIdle + 1 > 0
  {
    if s.queue == [] then
      if t == 0 && s.nTodo == 0 then
        Put(s, t, Outside).(nTotal := s.nTotal - 1, fAllOk := true, added := multiset{}, processed := multiset{}, ran := multiset{})
      else
        Put(s, t, Waiting(false)).(nIdle := s.nIdle + 1)
    else
      var n := BatchSize(s);
      Put(s, t, Running(Reversed(s.queue[|s.queue| - n..]), n, s.fAllOk)).(queue := s.queue[..|s.queue| - n])
  }

  datatype Event =
    | Enter(t: nat)                       // Thread() or Wait() starts: first iteration
    | Exec(t: nat)                        // the next check of the batch
    | Finish(t: nat)                      // the clean-up of the previous iteration, then the head
    | Wake(t: nat)                        // `cond.wait` returns, notified or not
    | Add(checks: seq<Check>, pick: nat)  // the master adds checks; `pick` is whom notify_one reaches

  function Notify(x: Thread): Thread {
    if x.Waiting? then Waiting(true) else x
  }

  function NotifyAll(ts: seq<Thread>): (r: seq<Thread>)
    ensures |r| == |ts|
    ensures forall i | 0 <= i < |ts| :: r[i] == if i == 0 then ts[i] else Notify(ts[i])
  {
    seq(|ts|, i requires 0 <= i < |ts| => if i == 0 then ts[i] else Notify(ts[i]))
  }

  /** notify_one after a single check, notify_all after more. */
  function AfterNotify(ts: seq<Thread>, n: nat, pick: nat): (r: seq<Thread>)
    ensures |r| == |ts|
    ensures forall i | 0 <= i < |ts| :: r[i] == ts[i] || (i > 0 && r[i] == Notify(ts[i]))
  {
    if n == 1 && 0 < pick < |ts| then ts[pick := Notify(ts[pick])]
    else if n > 1 then NotifyAll(ts)
    else ts
  }

  function Added(s: State, checks: seq<Check>): State {
    s.(queue := s.queue + checks, nTodo := s.nTodo + |checks|, added := s.added + multiset(checks))
  }

  function Entered(s: State, t: nat): State
    requires t < |s.threads|
  {
    Put(s, t, AtHead).(nTotal := s.nTotal + 1)
  }

  function Woken(s: State, t: nat): State
    requires t < |s.threads|
  {
    Put(s, t, AtHead).(nIdle := s.nIdle - 1)
  }

  /** One check of the batch; after a failure the rest is skipped. */
  function Executed(s: State, t: nat): State
    requires t < |s.threads| && s.threads[t].Running? && s.threads[t].left != []
  {
    var x, c := s.threads[t], s.threads[t].left[0];
    Put(s, t, Running(x.left[1..], x.nNow, x.fOk && c.ok)).(
      processed := s.processed + multiset{c}, ran := if x.fOk then s.ran + multiset{c} else s.ran)
  }

  /** The clean-up of the previous iteration; the worker that finishes the last check tells the master. */
  function Finished(s: State, t: nat): State
    requires t < |s.threads| && s.threads[t].Running?
  {
    var x := s.threads[t];
    var s1 := Put(s, t, AtHead).(fAllOk := s.fAllOk && x.fOk, nTodo := s.nTodo - x.nNow);
    if s1.nTodo == 0 && t != 0 then Put(s1, 0, Notify(s.threads[0])) else s1
  }

  /** One step; `None` if the event is not possible now. */
  function Step(s: State, e: Event): Option<State>
    requires |s.threads| > 0 && s.nIdle >= 0 && s.nTotal >= s.nIdle
  {
    match e
    case Enter(t) =>
      if t < |s.threads| && s.threads[t].Outside? then Some(Head(Entered(s, t), t)) else None
    case Exec(t) =>
      if t < |s.threads| && s.threads[t].Running? && s.threads[t].left != [] then Some(Executed(s, t)) else None
    case Finish(t) =>
      if t < |s.threads| && s.threads[t].Running? && s.threads[t].left == [] then
        Some(Head(Finished(s, t), t))
      else None
    case Wake(t) =>
      if t < |s.threads| && s.threads[t].Waiting? && s.nIdle > 0 then Some(Head(Woken(s, t), t)) else None
    case Add(checks, pick) =>
      if !s.threads[0].Outside? then None
      else
        Some(Added(s, checks).(threads := AfterNotify(s.threads, |checks|, pick)))
  }

  // ----- sums over threads -----

  ghost function Total(f: Thread -> int, ts: seq<Thread>): int {
    if ts == [] then 0 else f(ts[0]) + Total(f, ts[1..])
  }

  lemma {:induction false} TotalUpdate(f: Thread -> int, ts: seq<Thread>, i: nat, x: Thread)
    requires i < |ts|
    ensures Total(f, ts[i := x]) == Total(f, ts) - f(ts[i]) + f(x)
  {
    if i == 0 {
      assert ts[i := x][1..] == ts[1..];
    } else {
      assert ts[i := x][1..] == ts[1..][i - 1 := x];
      TotalUpdate(f, ts[1..], i - 1, x);
    }
  }

  lemma {:induction false} TotalSame(f: Thread -> int, ts: seq<Thread>, us: seq<Thread>)
    requires |ts| == |us| && forall i | 0 <= i < |ts| :: f(ts[i]) == f(us[i])
    ensures Total(f, ts) == Total(f, us)
  {
    if ts != [] {
      TotalSame(f, ts[1..], us[1..]);
    }
  }

  lemma {:induction false} TotalBound(f: Thread -> int, ts: seq<Thread>, i: nat)
    requires i < |ts| && forall x :: f(x) >= 0
    ensures 0 <= f(ts[i]) <= Total(f, ts)
  {
    TotalNonNegative(f, ts[1..]);
    if i > 0 {
      TotalBound(f, ts[1..], i - 1);
    }
  }

  lemma {:induction false} TotalNonNegative(f: Thread -> int, ts: seq<Thread>)
    requires forall x :: f(x) >= 0
    ensures Total(f, ts) >= 0
  {
    if ts != [] {
      TotalNonNegative(f, ts[1..]);
    }
  }

  function InFlight(x: Thread): int { if x.Running? then x.nNow else 0 }
  function IdleOne(x: Thread): int { if x.Waiting? then 1 else 0 }
  function InLoop(x: Thread): int { if x.Outside? then 0 else 1 }

  function LeftOf(x: Thread): seq<Check> { if x.Running? then x.left else [] }

  ghost function Lefts(ts: seq<Thread>): multiset<Check> {
    if ts == [] then multiset{} else multiset(LeftOf(ts[0])) + Lefts(ts[1..])
  }

  lemma {:induction false} LeftsUpdate(ts: seq<Thread>, i: nat, x: Thread)
    requires i < |ts|
    ensures Lefts(ts[i := x]) + multiset(LeftOf(ts[i])) == Lefts(ts) + multiset(LeftOf(x))
  {
    if i == 0 {
      assert ts[i := x][1..] == ts[1..];
    } else {
      assert ts[i := x][1..] == ts[1..][i - 1 := x];
      LeftsUpdate(ts[1..], i - 1, x);
      var a, b, b' := multiset(LeftOf(ts[0])), Lefts(ts[1..]), Lefts(ts[1..][i - 1 := x]);
      assert (a + b') + multiset(LeftOf(ts[i])) == a + (b' + multiset(LeftOf(ts[i])));
      assert (a + b) + multiset(LeftOf(x)) == a + (b + multiset(LeftOf(x)));
    }
  }

  lemma {:induction false} LeftsSame(ts: seq<Thread>, us: seq<Thread>)
    requires |ts| == |us| && forall i | 0 <= i < |ts| :: LeftOf(ts[i]) == LeftOf(us[i])
    ensures Lefts(ts) == Lefts(us)
  {
    if ts != [] {
      LeftsSame(ts[1..], us[1..]);
    }
  }

  lemma {:induction false} NoLefts(ts: seq<Thread>)
    requires forall i | 0 <= i < |ts| :: !ts[i].Running?
    ensures Lefts(ts) == multiset{} && Total(InFlight, ts) == 0 && Total(IdleOne, ts) <= Total(InLoop, ts)
    ensures (forall i | 0 <= i < |ts| :: !ts[i].AtHead?) ==> Total(IdleOne, ts) == Total(InLoop, ts)
  {
    if ts != [] {
      NoLefts(ts[1..]);
    }
  }

  // ----- the invariant -----

  ghost predicate NoFailure(s: State) {
    s.fAllOk && forall i | 0 <= i < |s.threads| && s.threads[i].Running? :: s.threads[i].fOk
  }

  /** The counters count what they are said to count. `at` is the thread in its critical section, if any. */
  ghost predicate Counted(s: State, at: Option<nat>) {
    && |s.threads| > 0
    && s.nTodo == |s.queue| + Total(InFlight, s.threads)
    && s.nIdle == Total(IdleOne, s.threads)
    && s.nTotal == Total(InLoop, s.threads)
    && (forall i | 0 <= i < |s.threads| && s.threads[i].Running? :: s.threads[i].nNow >= 1)
    && (forall i | 0 <= i < |s.threads| && s.threads[i].AtHead? :: at == Some(i))
    && s.nTodo <= |s.added|
  }

  /** A blocked master has nothing to do itself, and waits for something unless it has been told. */
  ghost predicate MasterOk(s: State)
    requires |s.threads| > 0
  {
    s.threads[0].Waiting? ==> s.queue == [] && (!s.threads[0].notified ==> s.nTodo > 0)
  }

  /** No check is lost or duplicated, and a failure is on record exactly if some check failed. */
  ghost predicate Accounted(s: State) {
    && s.added == multiset(s.queue) + Lefts(s.threads) + s.processed
    && s.ran <= s.processed
    && (NoFailure(s) ==> s.ran == s.processed && forall c | c in s.processed :: c.ok)
    && (!NoFailure(s) ==> exists c :: c in s.added && !c.ok)
  }

  ghost predicate Inv(s: State, at: Option<nat>) {
    Counted(s, at) && MasterOk(s) && Accounted(s)
  }

  lemma InitInv(nBatchSize: nat, nWorkers: nat)
    ensures Inv(Init(nBatchSize, nWorkers), None)
  {
    var s := Init(nBatchSize, nWorkers);
    NoLefts(s.threads);
    AllOutside(s.threads);
  }

  lemma {:induction false} AllOutside(ts: seq<Thread>)
    requires forall i | 0 <= i < |ts| :: ts[i].Outside?
    ensures Total(IdleOne, ts) == 0 && Total(InLoop, ts) == 0
  {
    if ts != [] {
      AllOutside(ts[1..]);
    }
  }

  lemma UpdateTotals(ts: seq<Thread>, t: nat, x: Thread)
    requires t < |ts|
    ensures Total(InFlight, ts[t := x]) == Total(InFlight, ts) - InFlight(ts[t]) + InFlight(x)
    ensures Total(IdleOne, ts[t := x]) == Total(IdleOne, ts) - IdleOne(ts[t]) + IdleOne(x)
    ensures Total(InLoop, ts[t := x]) == Total(InLoop, ts) - InLoop(ts[t]) + InLoop(x)
  {
    TotalUpdate(InFlight, ts, t, x);
    TotalUpdate(IdleOne, ts, t, x);
    TotalUpdate(InLoop, ts, t, x);
  }

  lemma {:induction false} ReversedSame(xs: seq<Check>)
    ensures multiset(Reversed(xs)) == multiset(xs)
  {
    if xs != [] {
      ReversedSame(xs[1..]);
      assert xs == [xs[0]] + xs[1..] && Reversed(xs) == Reversed(xs[1..]) + [xs[0]];
    }
  }

  lemma HeadCounted(s: State, t: nat)
    requires t < |s.threads| && s.threads[t].AtHead? && Counted(s, Some(t)) && s.nTotal + s.nIdle + 1 > 0
    ensures Counted(Head(s, t), None)
  {
    var s' := Head(s, t);
    UpdateTotals(s.threads, t, s'.threads[t]);
    TotalNonNegative(InFlight, s.threads);
  }

  lemma HeadMaster(s: State, t: nat)
    requires t < |s.threads| && s.threads[t].AtHead? && Counted(s, Some(t)) && MasterOk(s) && s.nTotal + s.nIdle + 1 > 0
    ensures MasterOk(Head(s, t))
  {
    TotalNonNegative(InFlight, s.threads);
  }

  /** With nothing to do, nobody is working. */
  lemma NobodyRuns(s: State, at: Option<nat>)
    requires Counted(s, at) && s.nTodo == 0
    ensures s.queue == [] && forall i | 0 <= i < |s.threads| :: !s.threads[i].Running?
  {
    TotalNonNegative(InFlight, s.threads);
    forall i | 0 <= i < |s.threads| ensures !s.threads[i].Running? {
      TotalBound(InFlight, s.threads, i);
    }
  }

  /** Taking a batch moves checks from the queue to the thread. */
  lemma TakeBatch(s: State, t: nat, n: nat)
    requires t < |s.threads| && s.threads[t].AtHead? && n <= |s.queue|
    ensures
      var x := Running(Reversed(s.queue[|s.queue| - n..]), n, s.fAllOk);
      multiset(s.queue[..|s.queue| - n]) + Lefts(s.threads[t := x]) == multiset(s.queue) + Lefts(s.threads)
  {
    var k := |s.queue| - n;
    var keep, batch := s.queue[..k], s.queue[k..];
    var x := Running(Reversed(batch), n, s.fAllOk);
    LeftsUpdate(s.threads, t, x);
    ReversedSame(batch);
    Divided(s.queue, k);
    assert multiset(LeftOf(s.threads[t])) == multiset{};
    MoveBatch(multiset(keep), multiset(batch), Lefts(s.threads), Lefts(s.threads[t := x]));
  }

  lemma Divided(q: seq<Check>, k: nat)
    requires k <= |q|
    ensures multiset(q) == multiset(q[..k]) + multiset(q[k..])
  {
    assert q == q[..k] + q[k..];
  }

  lemma MoveBatch(q: multiset<Check>, b: multiset<Check>, l: multiset<Check>, l': multiset<Check>)
    requires l' + multiset{} == l + b
    ensures q + l' == (q + b) + l
  {
    forall c ensures (q + l')[c] == ((q + b) + l)[c] {
      assert (l' + multiset{})[c] == (l + b)[c];
    }
  }

  lemma EmptySum(a: multiset<Check>, b: multiset<Check>)
    requires a + multiset{} == b + multiset{}
    ensures a == b
  {
    forall c ensures a[c] == b[c] {
      assert (a + multiset{})[c] == (b + multiset{})[c];
    }
  }

  lemma TakeFailure(s: State, t: nat)
    requires t < |s.threads| && s.threads[t].AtHead? && s.queue != [] && s.nTotal + s.nIdle + 1 > 0
    ensures NoFailure(Head(s, t)) <==> NoFailure(s)
  {
    var s' := Head(s, t);
    if NoFailure(s') {
      forall i | 0 <= i < |s.threads| && s.threads[i].Running? ensures s.threads[i].fOk { assert s'.threads[i] == s.threads[i]; }
    }
    if NoFailure(s) {
      forall i | 0 <= i < |s.threads| && s'.threads[i].Running? ensures s'.threads[i].fOk {
        if i != t { assert s'.threads[i] == s.threads[i]; }
      }
    }
  }

  lemma WaitFailure(s: State, t: nat, x: Thread)
    requires t < |s.threads| && !s.threads[t].Running? && !x.Running?
    ensures NoFailure(Put(s, t, x)) <==> NoFailure(s)
    ensures Lefts(Put(s, t, x).threads) == Lefts(s.threads)
  {
    var s' := Put(s, t, x);
    LeftsUpdate(s.threads, t, x);
    assert multiset(LeftOf(s.threads[t])) == multiset{} == multiset(LeftOf(x));
    EmptySum(Lefts(s'.threads), Lefts(s.threads));
    if NoFailure(s') {
      forall i | 0 <= i < |s.threads| && s.threads[i].Running? ensures s.threads[i].fOk { assert s'.threads[i] == s.threads[i]; }
    }
    if NoFailure(s) {
      forall i | 0 <= i < |s.threads| && s'.threads[i].Running? ensures s'.threads[i].fOk { assert s'.threads[i] == s.threads[i]; }
    }
  }

  lemma HeadAccounted(s: State, t: nat)
    requires t < |s.threads| && s.threads[t].AtHead? && Counted(s, Some(t)) && Accounted(s) && s.nTotal + s.nIdle + 1 > 0
    ensures Accounted(Head(s, t))
  {
    if s.queue != [] {
      HeadTakes(s, t);
    } else if t == 0 && s.nTodo == 0 {
      HeadLeaves(s);
    } else {
      HeadWaits(s, t);
    }
  }

  /** The checks only moved between the queue and the threads. */
  lemma SameAccount(s: State, s': State)
    requires Accounted(s) && s'.added == s.added && s'.processed == s.processed && s'.ran == s.ran && s'.fAllOk == s.fAllOk
    requires multiset(s'.queue) + Lefts(s'.threads) == multiset(s.queue) + Lefts(s.threads)
    requires NoFailure(s') <==> NoFailure(s)
    ensures Accounted(s')
  {
  }

  lemma BatchMoves(s: State, t: nat, n: nat, s': State)
    requires t < |s.threads| && s.threads[t].AtHead? && n <= |s.queue|
    requires s'.queue == s.queue[..|s.queue| - n]
    requires s'.threads == s.threads[t := Running(Reversed(s.queue[|s.queue| - n..]), n, s.fAllOk)]
    ensures multiset(s'.queue) + Lefts(s'.threads) == multiset(s.queue) + Lefts(s.threads)
  {
    TakeBatch(s, t, n);
  }

  lemma HeadTakesMoves(s: State, t: nat)
    requires t < |s.threads| && s.threads[t].AtHead? && s.nTotal + s.nIdle + 1 > 0 && s.queue != []
    ensures
      var s' := Head(s, t);
      && s'.added == s.added && s'.processed == s.processed && s'.ran == s.ran && s'.fAllOk == s.fAllOk
      && multiset(s'.queue) + Lefts(s'.threads) == multiset(s.queue) + Lefts(s.threads)
  {
    BatchMoves(s, t, BatchSize(s), Head(s, t));
  }

  lemma HeadTakes(s: State, t: nat)
    requires t < |s.threads| && s.threads[t].AtHead? && Accounted(s) && s.nTotal + s.nIdle + 1 > 0 && s.queue != []
    ensures Accounted(Head(s, t))
  {
    HeadTakesMoves(s, t);
    TakeFailure(s, t);
    SameAccount(s, Head(s, t));
  }

  lemma HeadLeaves(s: State)
    requires 0 < |s.threads| && s.threads[0].AtHead? && Counted(s, Some(0)) && Accounted(s) && s.nTotal + s.nIdle + 1 > 0
    requires s.queue == [] && s.nTodo == 0
    ensures Accounted(Head(s, 0))
  {
    NobodyRuns(s, Some(0));
    NoLefts(Head(s, 0).threads);
  }

  lemma HeadWaits(s: State, t: nat)
    requires t < |s.threads| && s.threads[t].AtHead? && Counted(s, Some(t)) && Accounted(s) && s.nTotal + s.nIdle + 1 > 0
    requires s.queue == [] && !(t == 0 && s.nTodo == 0)
    ensures Accounted(Head(s, t))
  {
    var s' := Head(s, t);
    WaitFailure(s, t, Waiting(false));
    assert NoFailure(s') <==> NoFailure(Put(s, t, Waiting(false)));
  }

  lemma HeadKeeps(s: State, t: nat)
    requires t < |s.threads| && s.threads[t].AtHead? && Inv(s, Some(t)) && s.nTotal + s.nIdle + 1 > 0
    ensures Inv(Head(s, t), None)
  {
    HeadCounted(s, t);
    HeadMaster(s, t);
    HeadAccounted(s, t);
  }

  lemma Sane(s: State, at: Option<nat>)
    requires Counted(s, at)
    ensures s.nTodo >= 0 && s.nIdle >= 0 && s.nTotal >= s.nIdle
  {
    TotalNonNegative(InFlight, s.threads);
    TotalNonNegative(IdleOne, s.threads);
    IdleAreInLoop(s.threads);
  }

  lemma {:induction false} IdleAreInLoop(ts: seq<Thread>)
    ensures Total(IdleOne, ts) <= Total(InLoop, ts)
  {
    if ts != [] {
      IdleAreInLoop(ts[1..]);
    }
  }

  lemma AtHeadAccounted(s: State, t: nat, s': State)
    requires Accounted(s) && t < |s.threads| && !s.threads[t].Running?
    requires s'.threads == s.threads[t := AtHead] && s'.fAllOk == s.fAllOk && s'.queue == s.queue
    requires s'.added == s.added && s'.processed == s.processed && s'.ran == s.ran
    ensures Accounted(s')
  {
    WaitFailure(s, t, AtHead);
    assert NoFailure(s') <==> NoFailure(Put(s, t, AtHead));
  }

  lemma EnterKeeps(s: State, t: nat)
    requires Inv(s, None) && t < |s.threads| && s.threads[t].Outside?
    ensures Inv(Entered(s, t), Some(t))
  {
    AtHeadAccounted(s, t, Entered(s, t));
    EnterCounted(s, t);
  }

  lemma EnterCounted(s: State, t: nat)
    requires Counted(s, None) && t < |s.threads| && s.threads[t].Outside?
    ensures Counted(Entered(s, t), Some(t))
  {
    UpdateTotals(s.threads, t, AtHead);
  }

  lemma WakeKeeps(s: State, t: nat)
    requires Inv(s, None) && t < |s.threads| && s.threads[t].Waiting?
    ensures Inv(Woken(s, t), Some(t))
  {
    AtHeadAccounted(s, t, Woken(s, t));
    WakeCounted(s, t);
  }

  lemma WakeCounted(s: State, t: nat)
    requires Counted(s, None) && t < |s.threads| && s.threads[t].Waiting?
    ensures Counted(Woken(s, t), Some(t))
  {
    UpdateTotals(s.threads, t, AtHead);
  }

  lemma ExecLefts(s: State, t: nat)
    requires t < |s.threads| && s.threads[t].Running? && s.threads[t].left != []
    ensures Lefts(Executed(s, t).threads) + Executed(s, t).processed == Lefts(s.threads) + s.processed
  {
    var x, s' := s.threads[t], Executed(s, t);
    var c := x.left[0];
    LeftsUpdate(s.threads, t, s'.threads[t]);
    assert x.left == [c] + x.left[1..];
    forall k ensures (Lefts(s'.threads) + s'.processed)[k] == (Lefts(s.threads) + s.processed)[k] {
      assert (Lefts(s'.threads) + multiset(x.left))[k] == (Lefts(s.threads) + multiset(x.left[1..]))[k];
    }
  }

  lemma ExecFailure(s: State, t: nat)
    requires t < |s.threads| && s.threads[t].Running? && s.threads[t].left != []
    ensures NoFailure(Executed(s, t)) <==> NoFailure(s) && s.threads[t].left[0].ok
  {
    var s' := Executed(s, t);
    if NoFailure(s') {
      assert s'.threads[t].fOk;
      forall i | 0 <= i < |s.threads| && s.threads[i].Running? ensures s.threads[i].fOk {
        if i != t { assert s'.threads[i] == s.threads[i]; }
      }
    }
    if NoFailure(s) && s.threads[t].left[0].ok {
      forall i | 0 <= i < |s.threads| && s'.threads[i].Running? ensures s'.threads[i].fOk {
        if i != t { assert s'.threads[i] == s.threads[i]; }
      }
    }
  }

  lemma Regroup(q: multiset<Check>, l: multiset<Check>, p: multiset<Check>, l': multiset<Check>, p': multiset<Check>)
    requires l' + p' == l + p
    ensures q + l' + p' == q + l + p
  {
    forall k ensures (q + l' + p')[k] == (q + l + p)[k] {
      assert (l' + p')[k] == (l + p)[k];
    }
  }

  lemma ExecKeeps(s: State, t: nat)
    requires Inv(s, None) && t < |s.threads| && s.threads[t].Running? && s.threads[t].left != []
    ensures Inv(Executed(s, t), None)
  {
    UpdateTotals(s.threads, t, Executed(s, t).threads[t]);
    ExecAccounted(s, t);
  }

  lemma ExecAccounted(s: State, t: nat)
    requires Accounted(s) && t < |s.threads| && s.threads[t].Running? && s.threads[t].left != []
    ensures Accounted(Executed(s, t))
  {
    var s', c := Executed(s, t), s.threads[t].left[0];
    ExecLefts(s, t);
    ExecFailure(s, t);
    Regroup(multiset(s.queue), Lefts(s.threads), s.processed, Lefts(s'.threads), s'.processed);
    assert NoFailure(s) ==> s.threads[t].fOk;
    assert c in s'.processed;
    assert s'.added == multiset(s'.queue) + Lefts(s'.threads) + s'.processed;
    assert c in s'.added;
  }

  lemma FinishedLefts(s: State, t: nat)
    requires t < |s.threads| && s.threads[t].Running? && s.threads[t].left == []
    ensures Lefts(Finished(s, t).threads) == Lefts(s.threads)
  {
    var s', ts := Finished(s, t), s.threads[t := AtHead];
    LeftsUpdate(s.threads, t, AtHead);
    assert multiset(LeftOf(s.threads[t])) == multiset{} == multiset(LeftOf(AtHead));
    EmptySum(Lefts(ts), Lefts(s.threads));
    LeftsSame(s'.threads, ts);
  }

  lemma FinishedFailure(s: State, t: nat)
    requires t < |s.threads| && s.threads[t].Running?
    ensures NoFailure(Finished(s, t)) <==> NoFailure(s)
  {
    var s' := Finished(s, t);
    if NoFailure(s') {
      forall i | 0 <= i < |s.threads| && s.threads[i].Running? ensures s.threads[i].fOk {
        if i != t { assert s'.threads[i] == s.threads[i]; }
      }
    }
    if NoFailure(s) {
      forall i | 0 <= i < |s.threads| && s'.threads[i].Running? ensures s'.threads[i].fOk { assert s'.threads[i] == s.threads[i]; }
    }
  }

  lemma FinishCounted(s: State, t: nat)
    requires Counted(s, None) && t < |s.threads| && s.threads[t].Running?
    ensures Counted(Finished(s, t), Some(t))
  {
    var s', ts := Finished(s, t), s.threads[t := AtHead];
    UpdateTotals(s.threads, t, AtHead);
    TotalSame(InFlight, s'.threads, ts);
    TotalSame(IdleOne, s'.threads, ts);
    TotalSame(InLoop, s'.threads, ts);
  }

  lemma FinishMaster(s: State, t: nat)
    requires Counted(s, None) && MasterOk(s) && t < |s.threads| && s.threads[t].Running?
    ensures MasterOk(Finished(s, t))
  {
    UpdateTotals(s.threads, t, AtHead);
    TotalNonNegative(InFlight, s.threads[t := AtHead]);
  }

  lemma FinishKeeps(s: State, t: nat)
    requires Inv(s, None) && t < |s.threads| && s.threads[t].Running? && s.threads[t].left == []
    ensures Inv(Finished(s, t), Some(t))
  {
    FinishCounted(s, t);
    FinishMaster(s, t);
    FinishedLefts(s, t);
    FinishedFailure(s, t);
  }

  lemma NotifyKeeps(s: State, ts: seq<Thread>)
    requires Counted(s, None) && Accounted(s) && |ts| == |s.threads| && ts[0] == s.threads[0]
    requires forall i | 0 <= i < |ts| :: ts[i] == s.threads[i] || ts[i] == Notify(s.threads[i])
    ensures Counted(s.(threads := ts), None) && Accounted(s.(threads := ts))
  {
    TotalSame(InFlight, s.threads, ts);
    TotalSame(IdleOne, s.threads, ts);
    TotalSame(InLoop, s.threads, ts);
    LeftsSame(s.threads, ts);
    assert NoFailure(s.(threads := ts)) <==> NoFailure(s);
  }

  lemma AddKeeps(s: State, checks: seq<Check>)
    requires Inv(s, None) && s.threads[0].Outside?
    ensures Inv(Added(s, checks), None)
  {
    var s' := Added(s, checks);
    assert NoFailure(s') <==> NoFailure(s);
    var q, b, l := multiset(s.queue), multiset(checks), Lefts(s.threads) + s.processed;
    assert q + Lefts(s.threads) + s.processed == q + l;
    forall k ensures (q + l + b)[k] == (q + b + l)[k] {}
    assert multiset(s.queue + checks) == q + b;
    assert s'.added == (q + b) + Lefts(s.threads) + s.processed;
  }

  lemma AddStep(s: State, checks: seq<Check>, pick: nat)
    requires Inv(s, None) && s.threads[0].Outside?
    ensures Inv(Added(s, checks).(threads := AfterNotify(s.threads, |checks|, pick)), None)
  {
    AddKeeps(s, checks);
    NotifyKeeps(Added(s, checks), AfterNotify(s.threads, |checks|, pick));
  }

  lemma ThenHead(s: State, t: nat)
    requires Inv(s, Some(t)) && t < |s.threads| && s.threads[t].AtHead?
    ensures s.nTotal + s.nIdle + 1 > 0 && Inv(Head(s, t), None)
  {
    Sane(s, Some(t));
    HeadKeeps(s, t);
  }

  ghost predicate Enabled(s: State) {
    |s.threads| > 0 && s.nIdle >= 0 && s.nTotal >= s.nIdle
  }

  lemma EnterStep(s: State, t: nat, s': State)
    requires Inv(s, None) && Enabled(s) && Step(s, Enter(t)) == Some(s')
    ensures Inv(s', None)
  {
    EnterKeeps(s, t);
    ThenHead(Entered(s, t), t);
  }

  lemma FinishStep(s: State, t: nat, s': State)
    requires Inv(s, None) && Enabled(s) && Step(s, Finish(t)) == Some(s')
    ensures Inv(s', None)
  {
    FinishHead(s, t, Finished(s, t));
  }

  lemma FinishHead(s: State, t: nat, f: State)
    requires Inv(s, None) && t < |s.threads| && s.threads[t].Running? && s.threads[t].left == [] && f == Finished(s, t)
    ensures f.nTotal + f.nIdle + 1 > 0 && t < |f.threads| && Inv(Head(f, t), None)
  {
    FinishKeeps(s, t);
    ThenHead(f, t);
  }

  lemma WakeStep(s: State, t: nat, s': State)
    requires Inv(s, None) && Enabled(s) && Step(s, Wake(t)) == Some(s')
    ensures Inv(s', None)
  {
    WakeKeeps(s, t);
    ThenHead(Woken(s, t), t);
  }

  lemma StepKeeps(s: State, e: Event)
    requires Inv(s, None)
    ensures Enabled(s) && (Step(s, e).Some? ==> Inv(Step(s, e).value, None))
  {
    Sane(s, None);
    if Step(s, e).Some? {
      var s' := Step(s, e).value;
      match e
      case Enter(t) => EnterStep(s, t, s');
      case Exec(t) => ExecKeeps(s, t);
      case Finish(t) => FinishStep(s, t, s');
      case Wake(t) => WakeStep(s, t, s');
      case Add(checks, pick) => AddStep(s, checks, pick);
      assert Inv(s', None);
    }
  }

  // ----- every interleaving -----

  ghost function Run(s: State, es: seq<Event>): Option<State>
    decreases |es|
  {
    if es == [] then Some(s)
    else match if Enabled(s) then Step(s, es[0]) else None
      case None => None
      case Some(s') => Run(s', es[1..])
  }

  ghost predicate Reachable(s: State) {
    exists nBatchSize, nWorkers, es :: Run(Init(nBatchSize, nWorkers), es) == Some(s)
  }

  lemma {:induction false} RunKeeps(s: State, es: seq<Event>)
    requires Inv(s, None)
    ensures Run(s, es).Some? ==> Inv(Run(s, es).value, None)
    decreases |es|
  {
    if es != [] {
      StepKeeps(s, es[0]);
      if Step(s, es[0]).Some? {
        RunKeeps(Step(s, es[0]).value, es[1..]);
      }
    }
  }

  lemma ReachableInv(s: State)
    requires Reachable(s)
    ensures Inv(s, None)
  {
    var nBatchSize, nWorkers, es :| Run(Init(nBatchSize, nWorkers), es) == Some(s);
    InitInv(nBatchSize, nWorkers);
    RunKeeps(Init(nBatchSize, nWorkers), es);
  }

  /** `nTodo` is what is queued plus what is in flight, and the two pool counters are exact. */
  lemma CountersAreExact(s: State)
    requires Reachable(s)
    ensures s.nTodo == |s.queue| + Total(InFlight, s.threads)
    ensures s.nIdle == Total(IdleOne, s.threads) && s.nTotal == Total(InLoop, s.threads)
    ensures s.added == multiset(s.queue) + Lefts(s.threads) + s.processed
  {
    ReachableInv(s);
  }

  /** The state in which the master holds the lock at the head of `Loop(true)` during `e`. */
  function MasterAtHead(s: State, e: Event): Option<State>
    requires |s.threads| > 0
  {
    match e
    case Enter(t) => if t == 0 && s.threads[0].Outside? then Some(Entered(s, 0)) else None
    case Wake(t) => if t == 0 && s.threads[0].Waiting? then Some(Woken(s, 0)) else None
    case Finish(t) => if t == 0 && s.threads[0].Running? && s.threads[0].left == [] then Some(Finished(s, 0)) else None
    case Exec(_) => None
    case Add(_, _) => None
  }

  /** `Wait` returns `fRet` in this step. */
  ghost predicate WaitReturns(s: State, e: Event, fRet: bool)
    requires |s.threads| > 0
  {
    match MasterAtHead(s, e)
    case None => false
    case Some(s1) => s1.queue == [] && s1.nTodo == 0 && fRet == s1.fAllOk
  }

  /**
   * `Wait` returns only when nothing is queued or in flight, and returns true exactly when every check
   * added since the previous `Wait` passes; in that case every one of them was run.
   */
  lemma WaitVerdict(s: State, e: Event, fRet: bool)
    requires Reachable(s) && |s.threads| > 0 && WaitReturns(s, e, fRet)
    ensures fRet <==> forall c | c in s.added :: c.ok
    ensures fRet ==> s.ran == s.added
    ensures s.queue == [] && forall i | 0 < i < |s.threads| :: !s.threads[i].Running?
  {
    ReachableInv(s);
    var s1 := MasterAtHead(s, e).value;
    assert Inv(s1, Some(0)) by {
      match e
      case Enter(t) => EnterKeeps(s, 0);
      case Wake(t) => WakeKeeps(s, 0);
      case Finish(t) => FinishKeeps(s, 0);
    }
    Settled(s1);
    forall i | 0 < i < |s.threads| ensures !s.threads[i].Running? {
      assert s1.threads[i] == s.threads[i];
    }
  }

  lemma Settled(s: State)
    requires Inv(s, Some(0)) && s.nTodo == 0
    ensures s.fAllOk <==> forall c | c in s.added :: c.ok
    ensures s.fAllOk ==> s.ran == s.added
    ensures forall i | 0 <= i < |s.threads| :: !s.threads[i].Running?
  {
    NobodyRuns(s, Some(0));
    NoLefts(s.threads);
    assert s.added == s.processed;
  }

  /** Returning resets the queue for the next controller. */
  lemma WaitResets(s: State, e: Event, fRet: bool)
    requires Reachable(s) && |s.threads| > 0 && WaitReturns(s, e, fRet)
    ensures Enabled(s)
    ensures
      var s' := Step(s, e);
      s'.Some? && s'.value.threads[0].Outside? && s'.value.fAllOk && s'.value.added == multiset{} && s'.value.nTodo == 0
  {
    ReachableInv(s);
    Sane(s, None);
    TotalBound(IdleOne, s.threads, 0);
  }

  /** A blocked master that has not been notified is waiting for a worker that is working. */
  lemma NoLostWakeup(s: State)
    requires Reachable(s) && |s.threads| > 0 && s.threads[0] == Waiting(false)
    ensures exists i :: 0 < i < |s.threads| && s.threads[i].Running?
  {
    ReachableInv(s);
    if forall i | 0 <= i < |s.threads| :: !s.threads[i].Running? {
      NoLefts(s.threads);
      assert false;
    }
  }

  /** The assertion of `CCheckQueueControl`: with nothing added since the last `Wait`, the queue is idle. */
  lemma IdleAtStart(s: State)
    requires Reachable(s) && |s.threads| > 0 && s.threads[0].Outside? && s.added == multiset{}
    ensures s.nTotal == s.nIdle && s.nTodo == 0 && s.fAllOk
  {
    ReachableInv(s);
    Sane(s, None);
    NobodyRuns(s, None);
    NoLefts(s.threads);
  }
}
