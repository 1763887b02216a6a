/** The shared exponential backoff under any interleaving of the discovery tasks. */
module Nat464Backoff {
  import opened Nat464Spec
  import opened Nat464Proofs
  import opened Arithmetic

  /** Tasks of the sequence at `pc`. */
  function CountAt(tasks: seq<Task>, pc: Pc): nat {
    if tasks == [] then 0
    else CountAt(tasks[1..], pc) + if tasks[0].pc == pc then 1 else 0
  }

  function LiveCount(tasks: seq<Task>): nat {
    if tasks == [] then 0
    else LiveCount(tasks[1..]) + if Live(tasks[0]) then 1 else 0
  }

  lemma {:induction false} CountUpdate(tasks: seq<Task>, i: nat, t: Task, pc: Pc)
    requires i < |tasks|
    ensures CountAt(tasks[i := t], pc) + (if tasks[i].pc == pc then 1 else 0)
         == CountAt(tasks, pc) + (if t.pc == pc then 1 else 0)
  {
    if i == 0 {
      assert tasks[i := t][1..] == tasks[1..];
    } else {
      assert tasks[i := t][1..] == tasks[1..][i - 1 := t];
      CountUpdate(tasks[1..], i - 1, t, pc);
    }
  }

  lemma {:induction false} CountAppend(tasks: seq<Task>, t: Task, pc: Pc)
    ensures CountAt(tasks + [t], pc) == CountAt(tasks, pc) + if t.pc == pc then 1 else 0
  {
    if tasks == [] {
      assert tasks + [t] == [t];
    } else {
      assert (tasks + [t])[1..] == tasks[1..] + [t];
      CountAppend(tasks[1..], t, pc);
    }
  }

  lemma {:induction false} SleepersAreLive(tasks: seq<Task>)
    ensures CountAt(tasks, Sleeping) <= LiveCount(tasks)
  {
    if tasks != [] {
      SleepersAreLive(tasks[1..]);
    }
  }

  lemma {:induction false} LiveCountPositive(tasks: seq<Task>, i: nat)
    requires i < |tasks| && Live(tasks[i])
    ensures LiveCount(tasks) >= 1
  {
    if i != 0 {
      LiveCountPositive(tasks[1..], i - 1);
    }
  }

  lemma {:induction false} OneLive(tasks: seq<Task>, i: nat, j: nat)
    requires LiveCount(tasks) <= 1
    requires i < |tasks| && j < |tasks| && Live(tasks[i]) && Live(tasks[j])
    ensures i == j
  {
    if i == 0 && j != 0 {
      LiveCountPositive(tasks[1..], j - 1);
    } else if i != 0 && j == 0 {
      LiveCountPositive(tasks[1..], i - 1);
    } else if i != 0 {
      OneLive(tasks[1..], i - 1, j - 1);
    }
  }

  /** At most `k` tasks are live at every point of the run. */
  predicate LiveThroughout(m: Machine, events: seq<Event>, k: nat)
    decreases |events|
  {
    LiveCount(m.tasks) <= k && (events != [] ==> LiveThroughout(Step(m, events[0]), events[1..], k))
  }

  /** `cycle` is the initial cycle doubled `iter - 1` times; every sleeper will double it once more. */
  predicate BackoffInv(m: Machine, k: nat) {
    && 1 <= m.iter
    && m.cycle == 100 * Pow2(m.iter - 1)
    && m.iter - 1 + CountAt(m.tasks, Sleeping) <= 9 + k
  }

  lemma {:induction false} PowersUpTo(n: nat, top: nat)
    requires n <= top
    ensures Pow2(n) <= Pow2(top)
  {
    Pow2Monotone(n, top);
  }

  /** 2^n below some round numbers. */
  lemma {:induction false} SmallPowers(n: nat)
    ensures n <= 9 ==> Pow2(n) <= 512
    ensures n >= 10 ==> Pow2(n) >= 1024
    ensures n <= 10 ==> Pow2(n) <= 1024
    ensures n <= 16 ==> Pow2(n) <= 0x1_0000
    ensures n <= 25 ==> Pow2(n) <= 0x200_0000
  {
    var five := 5;
    assert Pow2(five) == 32;
    var nine, ten := five + 4, five + five;
    Pow2Add(five, five);
    assert Pow2(five + 4) == 16 * Pow2(five);
    Pow2Add(ten, five);
    Pow2Add(ten, ten + five);
    assert Pow2(ten + five + 1) == 2 * Pow2(ten + five);
    if n <= 9 { PowersUpTo(n, nine); }
    if n >= 10 { PowersUpTo(ten, n); }
    if n <= 10 { PowersUpTo(n, ten); }
    if n <= 16 { PowersUpTo(n, ten + five + 1); }
    if n <= 25 { PowersUpTo(n, ten + (ten + five)); }
  }

  /** No power-of-two multiple of the initial cycle lies strictly between 51200 and 102400. */
  lemma {:induction false} CycleGap(iter: nat)
    requires 1 <= iter && 100 * Pow2(iter - 1) <= MAX_DISCOVERY_CYCLE_MS
    ensures iter <= 10 && 100 * Pow2(iter - 1) <= 51200
  {
    SmallPowers(iter - 1);
  }

  lemma {:induction false} Bounds(m: Machine, k: nat)
    requires BackoffInv(m, k) && k <= 16
    ensures m.iter <= 10 + k && m.cycle <= 100 * 0x200_0000 < UINT32_RANGE
    ensures CountAt(m.tasks, Sleeping) >= 1 ==> 2 * m.cycle < UINT32_RANGE
  {
    SmallPowers(m.iter - 1);
    if CountAt(m.tasks, Sleeping) >= 1 {
      SmallPowers(m.iter);
    }
  }

  lemma {:induction false} Pow2Nine(k: nat)
    ensures Pow2(9 + k) == 512 * Pow2(k)
  {
    if k == 0 {
      assert Pow2(9) == 512;
    } else {
      Pow2Nine(k - 1);
      assert 9 + k - 1 == 9 + (k - 1);
    }
  }

  lemma {:induction false} BackoffWake(m: Machine, i: nat, k: nat)
    requires BackoffInv(m, k) && k <= 16 && At(m, i, Sleeping)
    ensures BackoffInv(Step(m, Wake(i)), k)
  {
    var n := Step(m, Wake(i));
    CountUpdate(m.tasks, i, n.tasks[i], Sleeping);
    Bounds(m, k);
    assert n.cycle == 2 * m.cycle && n.iter == m.iter + 1;
  }

  lemma {:induction false} BackoffQuery(m: Machine, i: nat, answer: Answer, k: nat)
    requires BackoffInv(m, k) && k <= 16 && At(m, i, Checked) && LiveCount(Step(m, Query(i, answer)).tasks) <= k
    ensures BackoffInv(Step(m, Query(i, answer)), k)
  {
    var n := Step(m, Query(i, answer));
    SleepersAreLive(n.tasks);
    if answer.NotFound? {
      CountUpdate(m.tasks, i, n.tasks[i], Sleeping);
      if m.cycle <= MAX_DISCOVERY_CYCLE_MS {
        CycleGap(m.iter);
      }
    }
  }

  lemma {:induction false} BackoffPost(m: Machine, i: nat, k: nat)
    requires BackoffInv(m, k) && At(m, i, Posting)
    ensures BackoffInv(Step(m, Post(i)), k)
  {
    var t := m.tasks[i].(pc := Done);
    CountUpdate(m.tasks, i, t, Sleeping);
    CountAppend(m.tasks[i := t], Task(Ready, 0, 0), Sleeping);
  }

  lemma {:induction false} BackoffStep(m: Machine, e: Event, k: nat)
    requires BackoffInv(m, k) && k <= 16 && LiveCount(Step(m, e).tasks) <= k
    ensures BackoffInv(Step(m, e), k)
  {
    match e
    case Update(_) => CountAppend(m.tasks, Task(Ready, 0, 0), Sleeping);
    case SetIface(_) =>
    case CheckFlag(i) => if At(m, i, Ready) { CountUpdate(m.tasks, i, Step(m, e).tasks[i], Sleeping); }
    case ClearFlag(i) => if At(m, i, Clearing) { SleepersAreLive(Step(m, e).tasks); }
    case Query(i, answer) => if At(m, i, Checked) { BackoffQuery(m, i, answer, k); }
    case Wake(i) => if At(m, i, Sleeping) { BackoffWake(m, i, k); }
    case Post(i) => if At(m, i, Posting) { BackoffPost(m, i, k); }
  }

  lemma {:induction false} BackoffRun(m: Machine, events: seq<Event>, k: nat)
    requires BackoffInv(m, k) && k <= 16 && LiveThroughout(m, events, k)
    ensures BackoffInv(Run(m, events), k)
    decreases |events|
  {
    if events != [] {
      BackoffStep(m, events[0], k);
      BackoffRun(Step(m, events[0]), events[1..], k);
    }
  }

  /** With at most `k` <= 16 live tasks the cycle stays a power-of-two multiple of the initial
      one, tied to the iteration number, and neither the 32-bit nor the 8-bit field wraps, even
      after every task that is now asleep has doubled the cycle once more. */
  lemma {:induction false} BackoffNeverWraps(v6Iface: string, events: seq<Event>, k: nat)
    requires k <= 16 && LiveThroughout(Init(v6Iface), events, k)
    ensures var m := Run(Init(v6Iface), events);
            && 1 <= m.iter <= 10 + k < UINT8_RANGE
            && m.cycle == 100 * Pow2(m.iter - 1)
            && 100 * Pow2(m.iter - 1 + CountAt(m.tasks, Sleeping)) <= 51200 * Pow2(k) < UINT32_RANGE
  {
    BackoffRun(Init(v6Iface), events, k);
    var m := Run(Init(v6Iface), events);
    var c := CountAt(m.tasks, Sleeping);
    Pow2Nine(k);
    Pow2Monotone(m.iter - 1 + c, 9 + k);
    SmallPowers(k);
  }

  // ---------------------------------------------------------------------------------------
  // One discovery at a time: at most 11 queries and 102300 ms of sleep.

  predicate TaskBound(t: Task, iter: nat, cycle: nat)
    requires 1 <= iter
  {
    match t.pc
    case Ready => t.queries < iter && t.slept + 100 <= cycle
    case Checked => t.queries < iter && t.slept + 100 <= cycle
    case Sleeping => t.queries <= iter && t.slept + 100 <= 2 * cycle && cycle <= 51200
    case _ => t.queries <= 11 && t.slept <= 102300
  }

  predicate DiscoveryInv(m: Machine) {
    && BackoffInv(m, 1)
    && forall i :: 0 <= i < |m.tasks| ==> TaskBound(m.tasks[i], m.iter, m.cycle)
  }

  lemma {:induction false} OneAtATime(m: Machine)
    requires BackoffInv(m, 1)
    ensures m.iter <= 11 && 100 <= m.cycle <= 102400
    ensures m.cycle <= MAX_DISCOVERY_CYCLE_MS ==> m.iter <= 10 && m.cycle <= 51200
  {
    SmallPowers(m.iter - 1);
    if m.cycle <= MAX_DISCOVERY_CYCLE_MS {
      CycleGap(m.iter);
    }
  }

  lemma {:induction false} AtMostOne(tasks: seq<Task>)
    requires LiveCount(tasks) <= 1
    ensures AtMostOneLive(tasks)
  {
    forall i, j | 0 <= i < |tasks| && 0 <= j < |tasks| && Live(tasks[i]) && Live(tasks[j])
      ensures i == j
    {
      OneLive(tasks, i, j);
    }
  }

  lemma {:induction false} DiscoveryStep(m: Machine, e: Event)
    requires DiscoveryInv(m) && LiveCount(m.tasks) <= 1 && LiveCount(Step(m, e).tasks) <= 1
    ensures DiscoveryInv(Step(m, e))
  {
    BackoffStep(m, e, 1);
    OneAtATime(m);
    AtMostOne(m.tasks);
    TasksStep(m, e);
  }

  lemma {:induction false} TasksStep(m: Machine, e: Event)
    requires AtMostOneLive(m.tasks)
    requires 1 <= m.iter <= 11 && 100 <= m.cycle <= 102400
    requires m.cycle <= MAX_DISCOVERY_CYCLE_MS ==> m.iter <= 10 && m.cycle <= 51200
    requires forall i :: 0 <= i < |m.tasks| ==> TaskBound(m.tasks[i], m.iter, m.cycle)
    requires 1 <= Step(m, e).iter
    ensures forall i :: 0 <= i < |Step(m, e).tasks| ==> TaskBound(Step(m, e).tasks[i], Step(m, e).iter, Step(m, e).cycle)
  {
    var n := Step(m, e);
    forall i | 0 <= i < |n.tasks|
      ensures TaskBound(n.tasks[i], n.iter, n.cycle)
    {
      if i < |m.tasks| {
        TaskStep(m, e, i);
      }
    }
  }

  /** What is known of task `i` before a step. */
  predicate Tracked(m: Machine, i: nat) {
    && AtMostOneLive(m.tasks) && i < |m.tasks|
    && 1 <= m.iter <= 11 && 100 <= m.cycle <= 102400
    && (m.cycle <= MAX_DISCOVERY_CYCLE_MS ==> m.iter <= 10 && m.cycle <= 51200)
    && TaskBound(m.tasks[i], m.iter, m.cycle)
  }

  predicate Bounded(m: Machine, i: nat) {
    1 <= m.iter && i < |m.tasks| && TaskBound(m.tasks[i], m.iter, m.cycle)
  }

  lemma {:induction false} TaskClear(m: Machine, j: nat, i: nat)
    requires Tracked(m, i)
    ensures Bounded(Step(m, ClearFlag(j)), i)
  {
    if At(m, j, Clearing) && Live(m.tasks[i]) {
      assert Live(m.tasks[j]);
    }
  }

  lemma {:induction false} TaskQuery(m: Machine, j: nat, answer: Answer, i: nat)
    requires Tracked(m, i)
    ensures Bounded(Step(m, Query(j, answer)), i)
  {
    if At(m, j, Checked) && Live(m.tasks[i]) {
      assert Live(m.tasks[j]);
    }
  }

  lemma {:induction false} TaskWake(m: Machine, j: nat, i: nat)
    requires Tracked(m, i)
    ensures Bounded(Step(m, Wake(j)), i)
  {
    if At(m, j, Sleeping) && Live(m.tasks[i]) {
      assert Live(m.tasks[j]);
    }
  }

  lemma {:induction false} TaskPost(m: Machine, j: nat, i: nat)
    requires Tracked(m, i)
    ensures Bounded(Step(m, Post(j)), i)
  {
    if At(m, j, Posting) && Live(m.tasks[i]) {
      assert Live(m.tasks[j]);
    }
  }

  lemma {:induction false} TaskStep(m: Machine, e: Event, i: nat)
    requires Tracked(m, i)
    ensures Bounded(Step(m, e), i)
  {
    match e
    case ClearFlag(j) => TaskClear(m, j, i);
    case Query(j, answer) => TaskQuery(m, j, answer, i);
    case Wake(j) => TaskWake(m, j, i);
    case Post(j) => TaskPost(m, j, i);
    case _ =>
  }

  lemma {:induction false} DiscoveryRun(m: Machine, events: seq<Event>)
    requires DiscoveryInv(m) && LiveThroughout(m, events, 1)
    ensures DiscoveryInv(Run(m, events))
    decreases |events|
  {
    if events != [] {
      DiscoveryStep(m, events[0]);
      DiscoveryRun(Step(m, events[0]), events[1..]);
    }
  }

  /** While discoveries never overlap, none makes more than 11 queries or sleeps for more than
      102300 ms in all. */
  lemma {:induction false} DiscoveryIsBounded(v6Iface: string, events: seq<Event>, i: nat)
    requires LiveThroughout(Init(v6Iface), events, 1)
    requires i < |Run(Init(v6Iface), events).tasks|
    ensures Run(Init(v6Iface), events).tasks[i].queries <= 11
    ensures Run(Init(v6Iface), events).tasks[i].slept <= 102300
  {
    var init := Init(v6Iface);
    assert CountAt(init.tasks, Sleeping) == 0;
    DiscoveryRun(init, events);
    var m := Run(init, events);
    OneAtATime(m);
    assert TaskBound(m.tasks[i], m.iter, m.cycle);
  }

  /** Overlap is real: STOP, CONTINUE, STOP before the first task runs leaves two tasks to one
      flag, and the service may start clat although the last request was a STOP. */
  lemma {:induction false} TwoTasksOneFlag(v6Iface: string)
    ensures !Quiet(Run(Init(v6Iface), [Update(Continue), Update(Stop), Update(Continue), Update(Stop)]))
  {
    var events := [Update(Continue), Update(Stop), Update(Continue), Update(Stop)];
    var m1 := Step(Init(v6Iface), Update(Continue));
    var m2 := Step(m1, Update(Stop));
    var m3 := Step(m2, Update(Continue));
    var m4 := Step(m3, Update(Stop));
    assert events[1..][1..][1..] == [Update(Stop)] && events[1..][1..][1..][1..] == [];
    assert Run(m3, events[1..][1..][1..]) == m4;
    assert Run(m1, events[1..]) == m4;
    assert m4.tasks == [Task(Ready, 0, 0), Task(Ready, 0, 0)];
    assert Live(m4.tasks[0]) && Live(m4.tasks[1]);
    IdleIsQuietIffSettled(m4);
  }
}
