/**
 The allocation of request ids: an atomic counter that each constructor increments, tests and,
 past the maximum, resets, in three separate atomic steps.
 */
module RequestIds {

  const MIN_REQUEST_ID: nat := 1
  const MAX_REQUEST_ID: nat := 0x7FFF_FFFF
  const UINT32_RANGE: nat := 0x1_0000_0000

  /** Where a thread is inside the constructor. */
  datatype Pc = Idle | Testing | Resetting

  datatype Allocator = Allocator(next: nat, threads: seq<Pc>, issued: seq<nat>)

  datatype Event = Increment(thread: nat) | Test(thread: nat) | Reset(thread: nat)

  function Init(k: nat): Allocator {
    Allocator(MIN_REQUEST_ID, seq(k, _ => Idle), [])
  }

  function Step(a: Allocator, e: Event): Allocator {
    if e.thread >= |a.threads| then a
    else
      match (e, a.threads[e.thread])
      case (Increment(t), Idle) =>
        Allocator((a.next + 1) % UINT32_RANGE, a.threads[t := Testing], a.issued + [a.next])
      case (Test(t), Testing) =>
        a.(threads := a.threads[t := if a.next > MAX_REQUEST_ID then Resetting else Idle])
      case (Reset(t), Resetting) =>
        a.(threads := a.threads[t := Idle], next := MIN_REQUEST_ID)
      case _ => a
  }

  function Run(a: Allocator, events: seq<Event>): Allocator
    decreases |events|
  {
    if events == [] then a else Run(Step(a, events[0]), events[1..])
  }

  lemma {:induction false} RunConcat(a: Allocator, x: seq<Event>, y: seq<Event>)
    ensures Run(a, x + y) == Run(Run(a, x), y)
    decreases |x|
  {
    if x == [] {
      assert x + y == y;
    } else {
      assert (x + y)[0] == x[0] && (x + y)[1..] == x[1..] + y;
      RunConcat(Step(a, x[0]), x[1..], y);
    }
  }

  /** The process-wide counter, as one thread at a time uses it. */
  class RequestIdCounter {
    var nextRequestId: nat

    ghost predicate Valid()
      reads this
    {
      MIN_REQUEST_ID <= nextRequestId <= MAX_REQUEST_ID
    }

    constructor ()
      ensures Valid() && nextRequestId == MIN_REQUEST_ID
    {
      nextRequestId := MIN_REQUEST_ID;
    }

    method NewRequestId() returns (id: nat)
      requires Valid()
      modifies this
      ensures Valid() && id == old(nextRequestId)
      ensures nextRequestId == if id == MAX_REQUEST_ID then MIN_REQUEST_ID else id + 1
      ensures var a := Run(Allocator(old(nextRequestId), [Idle], []), [Increment(0), Test(0), Reset(0)]);
              a == Allocator(nextRequestId, [Idle], [id])
    {
      ghost var before := Allocator(nextRequestId, [Idle], []);
      id := nextRequestId;
      nextRequestId := (nextRequestId + 1) % UINT32_RANGE;
      if nextRequestId > MAX_REQUEST_ID {
        nextRequestId := MIN_REQUEST_ID;
      }
      SoloAllocation(before, 0);
    }
  }

  lemma {:induction false} SoloAllocation(a: Allocator, t: nat)
    requires t < |a.threads| && a.threads[t] == Idle && a.next <= MAX_REQUEST_ID
    ensures Run(a, [Increment(t), Test(t), Reset(t)])
         == Allocator(if a.next == MAX_REQUEST_ID then MIN_REQUEST_ID else a.next + 1, a.threads, a.issued + [a.next])
  {
    var events := [Increment(t), Test(t), Reset(t)];
    var a1 := Step(a, events[0]);
    var a2 := Step(a1, events[1]);
    var a3 := Step(a2, events[2]);
    assert events[1..] == [Test(t), Reset(t)] && events[1..][1..] == [Reset(t)];
    assert Run(a2, [Reset(t)]) == Run(a3, []) == a3;
    assert Run(a1, events[1..]) == a3;
    assert a3.threads == a.threads;
  }

  // ---------------------------------------------------------------------------------------
  // k threads: no id above MAX + k - 1, and that bound is met.

  function Pending(threads: seq<Pc>): nat {
    if threads == [] then 0 else Pending(threads[1..]) + if threads[0] == Idle then 0 else 1
  }

  lemma {:induction false} PendingUpdate(threads: seq<Pc>, t: nat, pc: Pc)
    requires t < |threads|
    ensures Pending(threads[t := pc]) + (if threads[t] == Idle then 0 else 1)
         == Pending(threads) + (if pc == Idle then 0 else 1)
  {
    if t == 0 {
      assert threads[t := pc][1..] == threads[1..];
    } else {
      assert threads[t := pc][1..] == threads[1..][t - 1 := pc];
      PendingUpdate(threads[1..], t - 1, pc);
    }
  }

  lemma {:induction false} PendingAtMost(threads: seq<Pc>)
    ensures Pending(threads) <= |threads|
  {
    if threads != [] {
      PendingAtMost(threads[1..]);
    }
  }

  lemma {:induction false} PendingInit(k: nat)
    ensures Pending(Init(k).threads) == 0
  {
    if k != 0 {
      PendingInit(k - 1);
      assert Init(k).threads[1..] == Init(k - 1).threads;
    }
  }

  predicate Inv(a: Allocator) {
    && MIN_REQUEST_ID <= a.next
    && (a.next > MAX_REQUEST_ID ==> a.next <= MAX_REQUEST_ID + Pending(a.threads))
    && forall i :: 0 <= i < |a.issued| ==> MIN_REQUEST_ID <= a.issued[i] <= MAX_REQUEST_ID + |a.threads| - 1
  }

  lemma {:induction false} InvStep(a: Allocator, e: Event)
    requires Inv(a) && |a.threads| <= 0x8000_0000
    ensures Inv(Step(a, e)) && |Step(a, e).threads| == |a.threads|
  {
    if e.thread < |a.threads| {
      var n := Step(a, e);
      PendingUpdate(a.threads, e.thread, Testing);
      PendingUpdate(a.threads, e.thread, Resetting);
      PendingUpdate(a.threads, e.thread, Idle);
      PendingAtMost(a.threads[e.thread := Testing]);
    }
  }

  lemma {:induction false} InvRun(a: Allocator, events: seq<Event>)
    requires Inv(a) && |a.threads| <= 0x8000_0000
    ensures Inv(Run(a, events)) && |Run(a, events).threads| == |a.threads|
    decreases |events|
  {
    if events != [] {
      InvStep(a, events[0]);
      InvRun(Step(a, events[0]), events[1..]);
    }
  }

  /** However k threads interleave, every id lies between 1 and MAX + k - 1. */
  lemma {:induction false} IdsAreBounded(k: nat, events: seq<Event>, i: nat)
    requires 1 <= k <= 0x8000_0000 && i < |Run(Init(k), events).issued|
    ensures 1 <= Run(Init(k), events).issued[i] <= 0x7FFF_FFFF + k - 1
  {
    PendingInit(k);
    InvRun(Init(k), events);
  }

  /** One thread alone brings the counter anywhere. */
  lemma {:induction false} Reach(k: nat, c: nat) returns (events: seq<Event>)
    requires 1 <= k && MIN_REQUEST_ID <= c <= MAX_REQUEST_ID
    ensures Run(Init(k), events).next == c && Run(Init(k), events).threads == Init(k).threads
    decreases c
  {
    if c == MIN_REQUEST_ID {
      events := [];
    } else {
      var before := Reach(k, c - 1);
      var one := [Increment(0), Test(0), Reset(0)];
      RunConcat(Init(k), before, one);
      SoloAllocation(Run(Init(k), before), 0);
      events := before + one;
    }
  }

  function Burst(n: nat): seq<Event> {
    if n == 0 then [] else Burst(n - 1) + [Increment(n - 1)]
  }

  lemma {:induction false} BurstRun(a: Allocator, n: nat)
    requires n <= |a.threads| && a.next + n < UINT32_RANGE && forall t :: 0 <= t < n ==> a.threads[t] == Idle
    ensures var b := Run(a, Burst(n));
            && b.next == a.next + n && |b.threads| == |a.threads|
            && (forall t :: n <= t < |a.threads| ==> b.threads[t] == a.threads[t])
            && |b.issued| == |a.issued| + n
            && (n > 0 ==> b.issued[|a.issued| + n - 1] == a.next + n - 1)
  {
    if n != 0 {
      BurstRun(a, n - 1);
      RunConcat(a, Burst(n - 1), [Increment(n - 1)]);
      var b := Run(a, Burst(n - 1));
      assert Run(b, [Increment(n - 1)]) == Step(b, Increment(n - 1));
    }
  }

  /** The bound is exact for every number of threads. */
  lemma {:induction false} BoundIsMet(k: nat) returns (events: seq<Event>)
    requires 1 <= k <= 0x8000_0000
    ensures 0x7FFF_FFFF + k - 1 in Run(Init(k), events).issued
  {
    var toMax := Reach(k, MAX_REQUEST_ID);
    var a := Run(Init(k), toMax);
    RunConcat(Init(k), toMax, Burst(k));
    BurstRun(a, k);
    events := toMax + Burst(k);
    var b := Run(Init(k), events);
    assert b.issued[|a.issued| + k - 1] == MAX_REQUEST_ID + k - 1;
  }

  // ---------------------------------------------------------------------------------------
  // Uniqueness: when allocations do not overlap, which one thread alone guarantees.

  function NthId(n: nat): nat {
    1 + n % MAX_REQUEST_ID
  }

  /** At most one allocation is under way at every point of the run. */
  predicate OneAtATime(a: Allocator, events: seq<Event>)
    decreases |events|
  {
    Pending(a.threads) <= 1 && (events == [] || OneAtATime(Step(a, events[0]), events[1..]))
  }

  predicate ThreadInv(pc: Pc, next: nat, issued: nat) {
    match pc
    case Idle => true
    case Testing => issued > 0 && next == NthId(issued - 1) + 1
    case Resetting => issued > 0 && NthId(issued) == 1
  }

  predicate SeqInv(a: Allocator) {
    && (forall i :: 0 <= i < |a.issued| ==> a.issued[i] == NthId(i))
    && (Pending(a.threads) == 0 ==> a.next == NthId(|a.issued|))
    && (forall t :: 0 <= t < |a.threads| ==> ThreadInv(a.threads[t], a.next, |a.issued|))
  }

  lemma {:induction false} OnlyOnePending(threads: seq<Pc>, t: nat, u: nat)
    requires Pending(threads) <= 1 && t < |threads| && u < |threads| && threads[t] != Idle && threads[u] != Idle
    ensures t == u
    decreases |threads|
  {
    if t == 0 && u > 0 {
      PendingSomewhere(threads[1..], u - 1);
    } else if u == 0 && t > 0 {
      PendingSomewhere(threads[1..], t - 1);
    } else if t > 0 {
      OnlyOnePending(threads[1..], t - 1, u - 1);
    }
  }

  lemma {:induction false} PendingSomewhere(threads: seq<Pc>, t: nat)
    requires t < |threads| && threads[t] != Idle
    ensures Pending(threads) >= 1
    decreases |threads|
  {
    if t > 0 {
      PendingSomewhere(threads[1..], t - 1);
    }
  }

  lemma {:induction false} NextId(n: nat)
    ensures NthId(n + 1) == if NthId(n) == MAX_REQUEST_ID then 1 else NthId(n) + 1
  {
  }

  lemma {:induction false} SeqInvStep(a: Allocator, e: Event)
    requires SeqInv(a) && Pending(a.threads) <= 1 && Pending(Step(a, e).threads) <= 1
    ensures SeqInv(Step(a, e))
  {
    var n := Step(a, e);
    if n != a {
      var t := e.thread;
      PendingUpdate(a.threads, t, n.threads[t]);
      if a.issued != [] {
        NextId(|a.issued| - 1);
      }
      if a.threads[t] != Idle {
        PendingSomewhere(a.threads, t);
      }
      forall u | 0 <= u < |n.threads| ensures ThreadInv(n.threads[u], n.next, |n.issued|) {
        if u != t && n.threads[u] != Idle {
          PendingSomewhere(a.threads, u);
          if a.threads[t] != Idle {
            OnlyOnePending(a.threads, t, u);
          }
        }
      }
    }
  }

  lemma {:induction false} SeqInvRun(a: Allocator, events: seq<Event>)
    requires SeqInv(a) && OneAtATime(a, events)
    ensures SeqInv(Run(a, events))
    decreases |events|
  {
    if events != [] {
      SeqInvStep(a, events[0]);
      SeqInvRun(Step(a, events[0]), events[1..]);
    }
  }

  /** Any MAX consecutive ids differ, in every run of k threads. */
  ghost predicate AlwaysDistinct(k: nat) {
    forall events, i, j :: 0 <= i < j < |Run(Init(k), events).issued| && j < i + 0x7FFF_FFFF ==>
      Run(Init(k), events).issued[i] != Run(Init(k), events).issued[j]
  }

  /** However many threads there are, while allocations do not overlap the n-th id (from 0) is
      1 + n mod MAX. */
  lemma {:induction false} SequentialIds(k: nat, events: seq<Event>, n: nat)
    requires OneAtATime(Init(k), events) && n < |Run(Init(k), events).issued|
    ensures Run(Init(k), events).issued[n] == 1 + n % 0x7FFF_FFFF
  {
    PendingInit(k);
    SeqInvRun(Init(k), events);
  }

  /** So any MAX consecutive ids differ. */
  lemma {:induction false} SequentialIdsDiffer(k: nat, events: seq<Event>, i: nat, j: nat)
    requires OneAtATime(Init(k), events) && i < j < |Run(Init(k), events).issued| && j < i + 0x7FFF_FFFF
    ensures Run(Init(k), events).issued[i] != Run(Init(k), events).issued[j]
  {
    SequentialIds(k, events, i);
    SequentialIds(k, events, j);
    ResiduesDiffer(i, j);
  }

  lemma {:induction false} AloneIsOneAtATime(a: Allocator, events: seq<Event>)
    requires |a.threads| == 1
    ensures OneAtATime(a, events)
    decreases |events|
  {
    PendingAtMost(a.threads);
    if events != [] {
      AloneIsOneAtATime(Step(a, events[0]), events[1..]);
    }
  }

  lemma {:induction false} ResiduesDiffer(i: nat, j: nat)
    requires i < j < i + MAX_REQUEST_ID
    ensures i % MAX_REQUEST_ID != j % MAX_REQUEST_ID
  {
  }

  lemma {:induction false} RunThree(a: Allocator, x: Event, y: Event, z: Event)
    ensures Run(a, [x, y, z]) == Step(Step(Step(a, x), y), z)
  {
    var b := Step(Step(a, x), y);
    assert [x, y, z][1..] == [y, z] && [y, z][1..] == [z] && [z][1..] == [];
    assert Run(b, [z]) == Step(b, z);
  }

  function LateReset(): seq<Event> {
    ([Increment(0), Increment(1), Test(0)] + [Test(1), Reset(0), Increment(0)]) + [Test(0), Reset(1), Increment(0)]
  }

  /** Two late resets: the second one sends the counter back under ids already handed out. */
  lemma {:induction false} TwoResets(a: Allocator)
    requires |a.threads| >= 2 && a.threads[0] == Idle && a.threads[1] == Idle && a.next == MAX_REQUEST_ID
    ensures Run(a, LateReset()).issued == a.issued + [MAX_REQUEST_ID, MAX_REQUEST_ID + 1, 1, 1]
  {
    var x, y := [Increment(0), Increment(1), Test(0)], [Test(1), Reset(0), Increment(0)];
    var b := BothPastTheEnd(a);
    var c := FirstReset(b);
    SecondReset(c);
    RunConcat(a, x, y);
    RunConcat(a, x + y, [Test(0), Reset(1), Increment(0)]);
  }

  lemma {:induction false} BothPastTheEnd(a: Allocator) returns (b: Allocator)
    requires |a.threads| >= 2 && a.threads[0] == Idle && a.threads[1] == Idle && a.next == MAX_REQUEST_ID
    ensures b == Run(a, [Increment(0), Increment(1), Test(0)])
    ensures |b.threads| >= 2 && b.threads[0] == Resetting && b.threads[1] == Testing
    ensures b.next == MAX_REQUEST_ID + 2 && b.issued == a.issued + [MAX_REQUEST_ID, MAX_REQUEST_ID + 1]
  {
    RunThree(a, Increment(0), Increment(1), Test(0));
    b := Run(a, [Increment(0), Increment(1), Test(0)]);
  }

  lemma {:induction false} FirstReset(b: Allocator) returns (c: Allocator)
    requires |b.threads| >= 2 && b.threads[0] == Resetting && b.threads[1] == Testing && b.next == MAX_REQUEST_ID + 2
    ensures c == Run(b, [Test(1), Reset(0), Increment(0)])
    ensures |c.threads| >= 2 && c.threads[0] == Testing && c.threads[1] == Resetting
    ensures c.next == 2 && c.issued == b.issued + [1]
  {
    RunThree(b, Test(1), Reset(0), Increment(0));
    c := Run(b, [Test(1), Reset(0), Increment(0)]);
  }

  lemma {:induction false} SecondReset(c: Allocator)
    requires |c.threads| >= 2 && c.threads[0] == Testing && c.threads[1] == Resetting && c.next == 2
    ensures Run(c, [Test(0), Reset(1), Increment(0)]).issued == c.issued + [1]
  {
    RunThree(c, Test(0), Reset(1), Increment(0));
  }

  // ---------------------------------------------------------------------------------------
  // The first cycle, overlaps or not

  predicate FirstCycle(a: Allocator) {
    && (forall i :: 0 <= i < |a.issued| && i < MAX_REQUEST_ID ==> a.issued[i] == i + 1)
    && (|a.issued| < MAX_REQUEST_ID ==>
          a.next == |a.issued| + 1 && forall t :: 0 <= t < |a.threads| ==> a.threads[t] != Resetting)
  }

  lemma {:induction false} FirstCycleRun(a: Allocator, events: seq<Event>)
    requires FirstCycle(a)
    ensures FirstCycle(Run(a, events))
    decreases |events|
  {
    if events != [] {
      FirstCycleRun(Step(a, events[0]), events[1..]);
    }
  }

  /** In every interleaving of any number of threads the first MAX ids are 1, 2, 3 and so on: none
      repeats before all have been handed out. */
  lemma {:induction false} FirstIdsCountUp(k: nat, events: seq<Event>, n: nat)
    requires n < |Run(Init(k), events).issued| && n < 0x7FFF_FFFF
    ensures Run(Init(k), events).issued[n] == n + 1
  {
    FirstCycleRun(Init(k), events);
  }

  /** A full cycle of distinct ids is guaranteed in every run exactly when there is one thread. */
  lemma {:induction false} DistinctIffSequential(k: nat)
    requires 1 <= k
    ensures AlwaysDistinct(k) <==> k == 1
  {
    if k == 1 {
      forall events, i, j | 0 <= i < j < |Run(Init(k), events).issued| && j < i + MAX_REQUEST_ID
        ensures Run(Init(k), events).issued[i] != Run(Init(k), events).issued[j]
      {
        AloneIsOneAtATime(Init(k), events);
        SequentialIdsDiffer(k, events, i, j);
      }
    } else {
      var toMax := Reach(k, MAX_REQUEST_ID);
      var a := Run(Init(k), toMax);
      RunConcat(Init(k), toMax, LateReset());
      TwoResets(a);
      var b := Run(Init(k), toMax + LateReset());
      assert b.issued[|a.issued| + 2] == b.issued[|a.issued| + 3];
    }
  }
}
