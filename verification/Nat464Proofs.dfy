/** What every run of the NAT464 service keeps. */
module Nat464Proofs {
  import opened Nat464Spec

  // ---------------------------------------------------------------------------------------
  // Clat requests alternate, in every run.

  predicate PairedAt(calls: seq<Call>, k: nat)
    requires k < |calls|
  {
    if k % 2 == 0 then calls[k].StartClat? && calls[k].prefix != ""
    else calls[k] == StopClat(calls[k - 1].iface)
  }

  predicate Paired(calls: seq<Call>) {
    forall k :: 0 <= k < |calls| ==> PairedAt(calls, k)
  }

  predicate CallsInv(m: Machine) {
    && Paired(m.calls)
    && (m.service == Running <==> |m.calls| % 2 == 1)
    && (m.service == Running ==> m.calls[|m.calls| - 1].iface == m.v6Iface)
    && m.v4TunIface == CLAT_PREFIX + m.v6Iface
  }

  lemma {:induction false} CallsInvStep(m: Machine, e: Event)
    requires CallsInv(m)
    ensures CallsInv(Step(m, e))
  {
    var n := Step(m, e);
    if n.calls != m.calls {
      var last := |m.calls|;
      assert |n.calls| == last + 1 && n.calls[..last] == m.calls;
      assert PairedAt(n.calls, last);
      forall k | 0 <= k < last ensures PairedAt(n.calls, k) {
        assert PairedAt(m.calls, k);
      }
    }
  }

  lemma {:induction false} CallsInvRun(m: Machine, events: seq<Event>)
    requires CallsInv(m)
    ensures CallsInv(Run(m, events))
    decreases |events|
  {
    if events != [] {
      CallsInvStep(m, events[0]);
      CallsInvRun(Step(m, events[0]), events[1..]);
    }
  }

  /** Start and Stop strictly alternate from a Start; every Start carries a prefix and every
      Stop names the interface of the Start it undoes, whatever the interleaving. */
  lemma {:induction false} ClatCallsAlternate(v6Iface: string, events: seq<Event>)
    ensures CallsInv(Run(Init(v6Iface), events))
  {
    CallsInvRun(Init(v6Iface), events);
  }

  // ---------------------------------------------------------------------------------------
  // When is an idle service quiet?  Exactly when every live task is already giving up, or the
  // stop flag is raised and at most one task is live to consume it.

  predicate Live(t: Task) {
    t.pc != Done
  }

  predicate AtMostOneLive(tasks: seq<Task>) {
    forall i, j :: 0 <= i < |tasks| && 0 <= j < |tasks| && Live(tasks[i]) && Live(tasks[j]) ==> i == j
  }

  predicate AllClearing(tasks: seq<Task>) {
    forall i :: 0 <= i < |tasks| && Live(tasks[i]) ==> tasks[i].pc == Clearing
  }

  /** Checked on the state alone, when a STOP has just been served. */
  predicate Settled(m: Machine) {
    AllClearing(m.tasks) || (m.stopFlag && AtMostOneLive(m.tasks))
  }

  predicate NoExternalContinue(events: seq<Event>) {
    forall k :: 0 <= k < |events| ==> events[k] != Update(Continue)
  }

  /** No schedule without an external CONTINUE ever starts clat. */
  ghost predicate Quiet(m: Machine) {
    forall events :: NoExternalContinue(events) ==> StartCount(Run(m, events).calls) == StartCount(m.calls)
  }

  predicate Winding(m: Machine) {
    && m.service != Running
    && Settled(m)
    && (m.service == Discovering ==>
          forall i :: 0 <= i < |m.tasks| ==> m.tasks[i].pc != Checked && m.tasks[i].pc != Posting)
  }

  lemma {:induction false} WindingStep(m: Machine, e: Event)
    requires Winding(m) && e != Update(Continue)
    ensures Winding(Step(m, e)) && Step(m, e).calls == m.calls
  {
    var n := Step(m, e);
    if AllClearing(m.tasks) {
      assert AllClearing(n.tasks);
    } else {
      match e
      case Post(i) =>
      case CheckFlag(i) => if At(m, i, Ready) { assert AllClearing(n.tasks); }
      case _ =>
    }
  }

  lemma {:induction false} WindingRun(m: Machine, events: seq<Event>)
    requires Winding(m) && NoExternalContinue(events)
    ensures Run(m, events).calls == m.calls
    decreases |events|
  {
    if events != [] {
      WindingStep(m, events[0]);
      assert NoExternalContinue(events[1..]);
      WindingRun(Step(m, events[0]), events[1..]);
    }
  }

  // The other direction builds the offending schedule.

  function Distance(pc: Pc): nat {
    match pc
    case Sleeping => 3
    case Ready => 2
    case Checked => 1
    case _ => 0
  }

  /** From any live task that is not giving up, with the flag down: a schedule in which that
      task gets to post, having stored a prefix unless it was posting already. */
  lemma {:induction false} ToPosting(m: Machine, a: nat) returns (events: seq<Event>)
    requires m.service != Running && !m.stopFlag
    requires a < |m.tasks| && m.tasks[a].pc in {Ready, Checked, Sleeping, Posting}
    requires m.tasks[a].pc == Posting ==> m.service == Idle || m.prefix != ""
    ensures NoExternalContinue(events)
    ensures var n := Run(m, events);
            && n.service == m.service && !n.stopFlag && n.calls == m.calls
            && At(n, a, Posting) && (n.service == Idle || n.prefix != "")
    decreases Distance(m.tasks[a].pc)
  {
    var q := Query(a, Found("64:ff9b::"));
    match m.tasks[a].pc
    case Posting => events := [];
    case Checked =>
      events := [q];
      assert Run(Step(m, q), []) == Run(m, [q]);
    case Ready =>
      var rest := ToPosting(Step(m, CheckFlag(a)), a);
      events := [CheckFlag(a)] + rest;
    case Sleeping =>
      var rest := ToPosting(Step(m, Wake(a)), a);
      events := [Wake(a)] + rest;
  }

  lemma {:induction false} ToStart(m: Machine, a: nat) returns (events: seq<Event>)
    requires m.service != Running && !m.stopFlag
    requires a < |m.tasks| && m.tasks[a].pc in {Ready, Checked, Sleeping, Posting}
    requires m.tasks[a].pc == Posting ==> m.service == Idle || m.prefix != ""
    ensures NoExternalContinue(events)
    ensures StartCount(Run(m, events).calls) == StartCount(m.calls) + 1
    decreases m.service == Idle
  {
    var e1 := ToPosting(m, a);
    var n := Run(m, e1);
    var p := Step(n, Post(a));
    assert Run(n, [Post(a)]) == p;
    RunConcat(m, e1, [Post(a)]);
    if m.service == Discovering {
      events := e1 + [Post(a)];
      assert p.calls[..|p.calls| - 1] == m.calls;
    } else {
      var e2 := ToStart(p, |n.tasks|);
      events := (e1 + [Post(a)]) + e2;
      RunConcat(m, e1 + [Post(a)], e2);
    }
  }

  /** A second live task `b` consumes the raised flag, leaving task `a` alone. */
  lemma {:induction false} LowerFlag(m: Machine, a: nat, b: nat) returns (events: seq<Event>)
    requires m.service == Idle && m.stopFlag && a != b
    requires a < |m.tasks| && b < |m.tasks| && Live(m.tasks[b])
    requires m.tasks[a].pc == Posting ==> m.tasks[b].pc != Posting
    ensures NoExternalContinue(events)
    ensures var n := Run(m, events);
            && !n.stopFlag && n.calls == m.calls && a < |n.tasks| && n.tasks[a] == m.tasks[a]
            && n.service != Running
            && (m.tasks[a].pc == Posting ==> n.service == Idle || n.prefix != "")
    decreases Distance(m.tasks[b].pc)
  {
    match m.tasks[b].pc
    case Clearing =>
      events := [ClearFlag(b)];
      assert Run(Step(m, ClearFlag(b)), []) == Run(m, events);
    case Ready =>
      var rest := LowerFlag(Step(m, CheckFlag(b)), a, b);
      events := [CheckFlag(b)] + rest;
    case Sleeping =>
      var rest := LowerFlag(Step(m, Wake(b)), a, b);
      events := [Wake(b)] + rest;
    case Posting =>
      // The late CONTINUE finds the service idle and submits a fresh task, which takes the flag.
      events := ConsumeByFreshTask(m, a, b);
    case Checked =>
      var q := Query(b, Found("64:ff9b::"));
      var n := Step(m, q);
      var rest := ConsumeByFreshTask(n, a, b);
      events := [q] + rest;
  }

  lemma {:induction false} ConsumeByFreshTask(m: Machine, a: nat, b: nat) returns (events: seq<Event>)
    requires m.service == Idle && m.stopFlag && a != b
    requires a < |m.tasks| && At(m, b, Posting)
    ensures NoExternalContinue(events)
    ensures var n := Run(m, events);
            && !n.stopFlag && n.calls == m.calls && a < |n.tasks| && n.tasks[a] == m.tasks[a]
            && n.service == Discovering && n.prefix == m.prefix
  {
    var c := |m.tasks|;
    var m1 := Step(m, Post(b));
    var m2 := Step(m1, CheckFlag(c));
    var m3 := Step(m2, ClearFlag(c));
    events := [Post(b), CheckFlag(c), ClearFlag(c)];
    assert events[1..] == [CheckFlag(c), ClearFlag(c)] && events[1..][1..] == [ClearFlag(c)];
    assert Run(m2, [ClearFlag(c)]) == Run(m3, []) == m3;
    assert Run(m1, events[1..]) == m3;
  }

  /** Two late CONTINUEs can each find the service idle when a STOP is served between them: the
      two fresh tasks then share one flag. */
  lemma {:induction false} TwoLatePosts(m: Machine, a: nat, b: nat) returns (events: seq<Event>)
    requires m.service == Idle && m.stopFlag && a != b && At(m, a, Posting) && At(m, b, Posting)
    ensures NoExternalContinue(events)
    ensures StartCount(Run(m, events).calls) == StartCount(m.calls) + 1
  {
    var c := |m.tasks|;
    var m1 := Step(m, Post(a));
    var m2 := Step(m1, Update(Stop));
    var e := ConsumeByOlderTask(m2, b, c);
    var n := Run(m2, e);
    var rest := ToStart(n, c + 1);
    RunConcat(m2, e, rest);
    events := [Post(a), Update(Stop)] + (e + rest);
    assert events[1..] == [Update(Stop)] + (e + rest) && events[1..][1..] == e + rest;
    assert Run(m1, events[1..]) == Run(m2, e + rest);
  }

  lemma {:induction false} ConsumeByOlderTask(m: Machine, b: nat, c: nat) returns (events: seq<Event>)
    requires m.service == Idle && m.stopFlag && At(m, b, Posting) && At(m, c, Ready)
    ensures NoExternalContinue(events)
    ensures var n := Run(m, events);
            && !n.stopFlag && n.calls == m.calls && n.service == Discovering
            && |n.tasks| == |m.tasks| + 1 && n.tasks[|m.tasks|].pc == Ready
  {
    var m1 := Step(m, Post(b));
    var m2 := Step(m1, CheckFlag(c));
    var m3 := Step(m2, ClearFlag(c));
    events := [Post(b), CheckFlag(c), ClearFlag(c)];
    assert events[1..] == [CheckFlag(c), ClearFlag(c)] && events[1..][1..] == [ClearFlag(c)];
    assert Run(m2, [ClearFlag(c)]) == Run(m3, []) == m3;
    assert Run(m1, events[1..]) == m3;
  }

  lemma {:induction false} UnsettledStarts(m: Machine) returns (events: seq<Event>)
    requires m.service == Idle && !Settled(m)
    ensures NoExternalContinue(events)
    ensures StartCount(Run(m, events).calls) == StartCount(m.calls) + 1
  {
    var a :| 0 <= a < |m.tasks| && Live(m.tasks[a]) && m.tasks[a].pc != Clearing;
    if !m.stopFlag {
      events := ToStart(m, a);
    } else {
      var i, j :| 0 <= i < |m.tasks| && 0 <= j < |m.tasks| && Live(m.tasks[i]) && Live(m.tasks[j]) && i != j;
      var b := if i == a then j else i;
      if m.tasks[a].pc == Posting && m.tasks[b].pc == Posting {
        events := TwoLatePosts(m, a, b);
      } else {
        var e := LowerFlag(m, a, b);
        var rest := ToStart(Run(m, e), a);
        RunConcat(m, e, rest);
        events := e + rest;
      }
    }
  }

  /** The exact condition, for every idle state whatsoever. */
  lemma {:induction false} IdleIsQuietIffSettled(m: Machine)
    requires m.service == Idle
    ensures Quiet(m) <==> Settled(m)
  {
    if Settled(m) {
      forall events | NoExternalContinue(events)
        ensures StartCount(Run(m, events).calls) == StartCount(m.calls)
      {
        WindingRun(m, events);
      }
    } else {
      var events := UnsettledStarts(m);
    }
  }

  /** A STOP served while discovering silences the service exactly when at most one task is
      live, or every live task was giving up already. */
  lemma {:induction false} StopWhileDiscovering(m: Machine)
    requires m.service == Discovering
    ensures Quiet(Step(m, Update(Stop))) <==> AtMostOneLive(m.tasks) || AllClearing(m.tasks)
  {
    IdleIsQuietIffSettled(Step(m, Update(Stop)));
  }

  /** A STOP served while running raises no flag, so a discovery task that is still live (a
      second CONTINUE can start clat from the prefix of an earlier discovery) survives it. */
  lemma {:induction false} StopWhileRunning(m: Machine)
    requires m.service == Running
    ensures Quiet(Step(m, Update(Stop))) <==> AllClearing(m.tasks) || (m.stopFlag && AtMostOneLive(m.tasks))
  {
    IdleIsQuietIffSettled(Step(m, Update(Stop)));
  }
}
