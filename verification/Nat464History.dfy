/** What the NAT464 service holds at any moment, told by what has happened to it. */
module Nat464History {
  import opened Arithmetic
  import opened Nat464Spec
  import opened Nat464Proofs
  import opened Nat464Backoff

  lemma {:induction false} RunSnoc(m: Machine, events: seq<Event>)
    requires events != []
    ensures Run(m, events) == Step(Run(m, events[..|events| - 1]), events[|events| - 1])
  {
    var init, e := events[..|events| - 1], events[|events| - 1];
    assert events == init + [e];
    RunConcat(m, init, [e]);
    assert Run(Run(m, init), [e]) == Step(Run(m, init), e);
  }

  /** The state before event `n`. */
  function Before(v6Iface: string, events: seq<Event>, n: nat): Machine
    requires n <= |events|
  {
    Run(Init(v6Iface), events[..n])
  }

  // ---------------------------------------------------------------------------------------
  // The prefix

  /** Event `n` is an answer of the DNS64 server to a discovery that asked. */
  predicate Answers(v6Iface: string, events: seq<Event>, n: nat)
    requires n < |events|
  {
    events[n].Query? && events[n].answer.Found? && At(Before(v6Iface, events, n), events[n].task, Checked)
  }

  /** Event `n` stops a running clat. */
  predicate Stops(v6Iface: string, events: seq<Event>, n: nat)
    requires n < |events|
  {
    events[n] == Update(Stop) && Before(v6Iface, events, n).service == Running
  }

  /** One step leaves a prefix only by an answer, or where it was and clat is not stopped. */
  lemma {:induction false} PrefixStep(m: Machine, e: Event)
    ensures var answered := e.Query? && e.answer.Found? && At(m, e.task, Checked);
            Step(m, e).prefix == if answered then e.answer.address
                                 else if e == Update(Stop) && m.service == Running then "" else m.prefix
  {
  }

  /** A stored prefix is the address of the last answer, and no clat has been stopped since. */
  lemma {:induction false} PrefixOrigin(v6Iface: string, events: seq<Event>) returns (q: nat)
    requires Run(Init(v6Iface), events).prefix != ""
    ensures q < |events| && Answers(v6Iface, events, q)
    ensures events[q].answer.address == Run(Init(v6Iface), events).prefix
    ensures forall n :: q < n < |events| ==> !Answers(v6Iface, events, n) && !Stops(v6Iface, events, n)
    decreases |events|
  {
    var last := |events| - 1;
    var init := events[..last];
    RunSnoc(Init(v6Iface), events);
    PrefixStep(Run(Init(v6Iface), init), events[last]);
    if Answers(v6Iface, events, last) {
      q := last;
    } else {
      q := PrefixOrigin(v6Iface, init);
      forall n | q <= n < last
        ensures Answers(v6Iface, init, n) <==> Answers(v6Iface, events, n)
        ensures Stops(v6Iface, init, n) <==> Stops(v6Iface, events, n)
      {
        assert init[..n] == events[..n];
      }
    }
  }

  /** Every StartClat, in every run, carries the interface of the service and the address of the last
      answer the DNS64 server gave since the last StopClat. */
  lemma {:induction false} StartCarriesAnswer(v6Iface: string, events: seq<Event>, s: nat) returns (q: nat)
    requires s < |events|
    requires StartCount(Before(v6Iface, events, s + 1).calls) > StartCount(Before(v6Iface, events, s).calls)
    ensures q < s && Answers(v6Iface, events, q)
    ensures Before(v6Iface, events, s + 1).calls
         == Before(v6Iface, events, s).calls + [StartClat(Before(v6Iface, events, s).v6Iface, events[q].answer.address)]
    ensures forall n :: q < n < s ==> !Answers(v6Iface, events, n) && !Stops(v6Iface, events, n)
  {
    var before, after := events[..s], events[..s + 1];
    assert after[..s] == before;
    RunSnoc(Init(v6Iface), after);
    var m := Run(Init(v6Iface), before);
    OneCallMore(m, events[s]);
    q := PrefixOrigin(v6Iface, before);
    forall n | q <= n < s
      ensures Answers(v6Iface, before, n) <==> Answers(v6Iface, events, n)
      ensures Stops(v6Iface, before, n) <==> Stops(v6Iface, events, n)
    {
      assert before[..n] == events[..n];
    }
  }

  lemma {:induction false} OneCallMore(m: Machine, e: Event)
    requires StartCount(Step(m, e).calls) > StartCount(m.calls)
    ensures m.prefix != "" && Step(m, e).calls == m.calls + [StartClat(m.v6Iface, m.prefix)]
  {
    var n := Step(m, e);
    if n.calls != m.calls {
      assert n.calls[..|n.calls| - 1] == m.calls;
    }
  }

  /** The name set last while the service was idle. */
  function LastName(v6Iface: string, events: seq<Event>): string {
    if events == [] then v6Iface
    else
      var n := |events| - 1;
      if events[n].SetIface? && Before(v6Iface, events, n).service == Idle then events[n].name
      else LastName(v6Iface, events[..n])
  }

  lemma {:induction false} IfaceIsLastName(v6Iface: string, events: seq<Event>)
    ensures Run(Init(v6Iface), events).v6Iface == LastName(v6Iface, events)
    decreases |events|
  {
    if events != [] {
      RunSnoc(Init(v6Iface), events);
      IfaceIsLastName(v6Iface, events[..|events| - 1]);
    }
  }

  // ---------------------------------------------------------------------------------------
  // The backoff

  /** Sleeps that ended since the backoff was last reset, by an answer or by a consumed stop flag. */
  function Rounds(v6Iface: string, events: seq<Event>): nat {
    if events == [] then 0
    else
      var n := |events| - 1;
      NextRounds(Before(v6Iface, events, n), events[n], Rounds(v6Iface, events[..n]))
  }

  lemma {:induction false} LiveThroughoutPrefix(m: Machine, events: seq<Event>, n: nat, k: nat)
    requires LiveThroughout(m, events, k) && n <= |events|
    ensures LiveThroughout(m, events[..n], k)
    decreases |events|
  {
    if n > 0 {
      assert events[..n][1..] == events[1..][..n - 1];
      LiveThroughoutPrefix(Step(m, events[0]), events[1..], n - 1, k);
    }
  }

  /** The count after one more event. */
  function NextRounds(m: Machine, e: Event, rounds: nat): nat {
    match e
    case Query(i, answer) => if At(m, i, Checked) && answer.Found? then 0 else rounds
    case ClearFlag(i) => if At(m, i, Clearing) then 0 else rounds
    case Wake(i) => if At(m, i, Sleeping) then rounds + 1 else rounds
    case _ => rounds
  }

  lemma {:induction false} RoundsStep(m: Machine, e: Event, rounds: nat, k: nat)
    requires BackoffInv(m, k) && k <= 16 && m.iter == rounds + 1 && m.cycle == 100 * Pow2(rounds)
    ensures var n, next := Step(m, e), NextRounds(m, e, rounds);
            n.iter == next + 1 && n.cycle == 100 * Pow2(next)
  {
    if e.Wake? && At(m, e.task, Sleeping) {
      SleeperCounts(m.tasks, e.task);
      Bounds(m, k);
    }
  }

  /** With at most 16 live tasks the cycle is exactly 100 ms doubled once for each of those sleeps. */
  lemma {:induction false} CycleIsHistory(v6Iface: string, events: seq<Event>, k: nat)
    requires k <= 16 && LiveThroughout(Init(v6Iface), events, k)
    ensures var m, rounds := Run(Init(v6Iface), events), Rounds(v6Iface, events);
            m.iter == rounds + 1 && m.cycle == 100 * Pow2(rounds)
    decreases |events|
  {
    if events != [] {
      var n := |events| - 1;
      var init := events[..n];
      LiveThroughoutPrefix(Init(v6Iface), events, n, k);
      CycleIsHistory(v6Iface, init, k);
      RunSnoc(Init(v6Iface), events);
      BackoffRun(Init(v6Iface), init, k);
      RoundsStep(Run(Init(v6Iface), init), events[n], Rounds(v6Iface, init), k);
    }
  }

  lemma {:induction false} SleeperCounts(tasks: seq<Task>, i: nat)
    requires i < |tasks| && tasks[i].pc == Sleeping
    ensures CountAt(tasks, Sleeping) >= 1
    decreases |tasks|
  {
    if i > 0 {
      SleeperCounts(tasks[1..], i - 1);
    }
  }

  // ---------------------------------------------------------------------------------------
  // A discovery whose queries all fail

  /** Task `i` alone, begun with a fresh backoff, has had no answer so far: its queries and sleeps. */
  predicate Failing(m: Machine, i: nat) {
    && i < |m.tasks| && m.service != Idle && !m.stopFlag
    && (forall j :: 0 <= j < |m.tasks| && j != i ==> m.tasks[j].pc == Done)
    && 1 <= m.iter <= 11 && m.cycle == 100 * Pow2(m.iter - 1)
    && var t := m.tasks[i];
       match t.pc
       case Ready => t.queries == m.iter - 1 && t.slept == m.cycle - 100
       case Checked => t.queries == m.iter - 1 && t.slept == m.cycle - 100
       case Sleeping => t.queries == m.iter <= 10 && t.slept == 2 * m.cycle - 100
       case Done => t.queries == 11 && t.slept == 102300
       case _ => false
  }

  /** No STOP, and no answer. */
  predicate Unanswered(e: Event) {
    e != Update(Stop) && (e.Query? ==> e.answer.NotFound?)
  }

  lemma {:induction false} TenDoublings(iter: nat)
    requires 1 <= iter <= 11
    ensures 100 * Pow2(iter - 1) > 100000 <==> iter == 11
    ensures iter == 11 ==> 100 * Pow2(iter - 1) == 102400
    ensures 100 * Pow2(iter - 1) <= 102400
  {
    SmallPowers(iter - 1);
  }

  lemma {:induction false} FailingQuery(m: Machine, i: nat)
    requires Failing(m, i) && At(m, i, Checked)
    ensures Failing(Step(m, Query(i, NotFound)), i)
  {
    TenDoublings(m.iter);
  }

  lemma {:induction false} FailingWake(m: Machine, i: nat)
    requires Failing(m, i) && At(m, i, Sleeping)
    ensures Failing(Step(m, Wake(i)), i)
  {
    TenDoublings(m.iter);
    TenDoublings(m.iter + 1);
  }

  /** Steps of other tasks, and updates, leave the discovery where it is. */
  lemma {:induction false} FailingOther(m: Machine, i: nat, e: Event)
    requires Failing(m, i) && Unanswered(e) && !(e.Query? && e.task == i) && !(e.Wake? && e.task == i)
    ensures Failing(Step(m, e), i)
  {
    match e
    case Update(_) =>
    case SetIface(_) =>
    case CheckFlag(j) =>
    case _ => assert Step(m, e) == m;
  }

  lemma {:induction false} FailingStep(m: Machine, i: nat, e: Event)
    requires Failing(m, i) && Unanswered(e)
    ensures Failing(Step(m, e), i)
  {
    if e == Query(i, NotFound) {
      if At(m, i, Checked) {
        FailingQuery(m, i);
      }
    } else if e == Wake(i) {
      if At(m, i, Sleeping) {
        FailingWake(m, i);
      }
    } else {
      FailingOther(m, i, e);
    }
  }

  lemma {:induction false} FailingRun(m: Machine, i: nat, events: seq<Event>)
    requires Failing(m, i) && forall n :: 0 <= n < |events| ==> Unanswered(events[n])
    ensures Failing(Run(m, events), i)
    decreases |events|
  {
    if events != [] {
      FailingStep(m, i, events[0]);
      FailingRun(Step(m, events[0]), i, events[1..]);
    }
  }

  /** An idle service with no task and a fresh backoff, as at the start and after every answer. */
  predicate Fresh(m: Machine) {
    m.service == Idle && !m.stopFlag && m.iter == 1 && m.cycle == 100 && forall j :: 0 <= j < |m.tasks| ==> m.tasks[j].pc == Done
  }

  /** A discovery from there whose queries all fail, however its steps fall, ends only after exactly
      11 queries and 102300 ms of sleep; until then the n-th failure is followed by a sleep. */
  lemma {:induction false} FailedDiscovery(m: Machine, events: seq<Event>)
    requires Fresh(m) && forall n :: 0 <= n < |events| ==> Unanswered(events[n])
    ensures var i, n := |m.tasks|, Run(Step(m, Update(Continue)), events);
            && i < |n.tasks|
            && (n.tasks[i].pc == Done ==> n.tasks[i].queries == 11 && n.tasks[i].slept == 102300)
            && (n.tasks[i].pc == Sleeping ==> n.tasks[i].queries <= 10)
            && n.tasks[i].pc in {Ready, Checked, Sleeping, Done}
  {
    var m1 := Step(m, Update(Continue));
    assert Pow2(0) == 1;
    assert Failing(m1, |m.tasks|);
    FailingRun(m1, |m.tasks|, events);
  }

  /** And it does end when its steps are taken. */
  lemma {:induction false} Exhausted(m: Machine, i: nat) returns (events: seq<Event>)
    requires Failing(m, i)
    ensures forall n :: 0 <= n < |events| ==> Unanswered(events[n])
    ensures i < |Run(m, events).tasks| && Run(m, events).tasks[i] == Task(Done, 11, 102300)
    decreases 12 - m.iter, match m.tasks[i].pc { case Ready => 3 case Checked => 2 case Sleeping => 1 case _ => 0 }
  {
    var t := m.tasks[i];
    TenDoublings(m.iter);
    if t.pc == Done {
      events := [];
    } else {
      var e := if t.pc == Ready then CheckFlag(i) else if t.pc == Checked then Query(i, NotFound) else Wake(i);
      FailingStep(m, i, e);
      var rest := Exhausted(Step(m, e), i);
      events := [e] + rest;
      assert events[1..] == rest;
    }
  }
}
