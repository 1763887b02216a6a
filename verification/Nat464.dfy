/**
 The NAT464 discovery service: a three-state machine driven by a serial update queue,
 while free-running discovery tasks share one stop flag, one backoff and one prefix.

 `Machine` is the value of all shared state.  `Step` is one atomic step: an update taken
 from the queue, an interface change, or one piece of one discovery task.  Every function
 is total: an event whose task is not at the right place changes nothing, so the runs of
 the service are exactly the sequences of events.
 */
module Nat464Spec {

  const INITIAL_DISCOVERY_CYCLE_MS: nat := 100
  const MAX_DISCOVERY_CYCLE_MS: nat := 100000
  const DISCOVERY_CYCLE_MULTIPLIER: nat := 2
  const CLAT_PREFIX := "tunv4-"
  const UINT32_RANGE: nat := 0x1_0000_0000
  const UINT8_RANGE: nat := 0x100

  datatype ServiceState = Idle | Discovering | Running

  datatype UpdateFlag = Continue | Stop

  /** Where a discovery task is inside `DiscoverPrefix`. */
  datatype Pc =
    | Ready      // submitted, has not looked at the stop flag yet
    | Clearing   // saw the stop flag raised, has not lowered it yet
    | Checked    // saw the stop flag down, about to query the DNS64 server
    | Posting    // found a prefix, its CONTINUE is not served yet
    | Sleeping   // the query failed, waiting for the current cycle
    | Done

  /** A task with the number of queries it made and the milliseconds of all the sleeps it began. */
  datatype Task = Task(pc: Pc, queries: nat, slept: nat)

  datatype Call = StartClat(iface: string, prefix: string) | StopClat(iface: string)

  datatype Answer = Found(address: string) | NotFound

  datatype Machine = Machine(
    service: ServiceState,
    v6Iface: string,
    v4TunIface: string,
    stopFlag: bool,
    cycle: nat,
    iter: nat,
    prefix: string,
    tasks: seq<Task>,
    calls: seq<Call>)

  datatype Event =
    | Update(flag: UpdateFlag)        // an external UpdateService, when the queue serves it
    | SetIface(name: string)
    | CheckFlag(task: nat)
    | ClearFlag(task: nat)
    | Query(task: nat, answer: Answer)
    | Wake(task: nat)
    | Post(task: nat)

  function Init(v6Iface: string): Machine {
    Machine(Idle, v6Iface, CLAT_PREFIX + v6Iface, false, INITIAL_DISCOVERY_CYCLE_MS, 1, "", [], [])
  }

  predicate At(m: Machine, i: nat, pc: Pc) {
    i < |m.tasks| && m.tasks[i].pc == pc
  }

  function Goto(m: Machine, i: nat, pc: Pc): Machine
    requires i < |m.tasks|
  {
    m.(tasks := m.tasks[i := m.tasks[i].(pc := pc)])
  }

  function ResetBackoff(m: Machine): Machine {
    m.(cycle := INITIAL_DISCOVERY_CYCLE_MS, iter := 1)
  }

  function ApplyIface(m: Machine, name: string): Machine {
    if m.service == Idle then m.(v6Iface := name, v4TunIface := CLAT_PREFIX + name) else m
  }

  function ApplyUpdate(m: Machine, flag: UpdateFlag): Machine {
    match m.service
    case Idle =>
      if flag == Continue then m.(service := Discovering, tasks := m.tasks + [Task(Ready, 0, 0)]) else m
    case Discovering =>
      if flag == Stop then m.(service := Idle, stopFlag := true)
      else if m.prefix != "" then m.(service := Running, calls := m.calls + [StartClat(m.v6Iface, m.prefix)])
      else m
    case Running =>
      if flag == Stop then m.(service := Idle, calls := m.calls + [StopClat(m.v6Iface)], prefix := "") else m
  }

  function ApplyCheck(m: Machine, i: nat): Machine {
    if At(m, i, Ready) then Goto(m, i, if m.stopFlag then Clearing else Checked) else m
  }

  function ApplyClear(m: Machine, i: nat): Machine {
    if At(m, i, Clearing) then ResetBackoff(Goto(m, i, Done).(stopFlag := false)) else m
  }

  function ApplyQuery(m: Machine, i: nat, answer: Answer): Machine {
    if !At(m, i, Checked) then m
    else
      var t := m.tasks[i].(queries := m.tasks[i].queries + 1);
      match answer
      case Found(address) =>
        ResetBackoff(m.(tasks := m.tasks[i := t.(pc := Posting)], prefix := address))
      case NotFound =>
        if m.cycle > MAX_DISCOVERY_CYCLE_MS then m.(tasks := m.tasks[i := t.(pc := Done)])
        else m.(tasks := m.tasks[i := t.(pc := Sleeping, slept := t.slept + m.cycle)])
  }

  /** The end of the sleep: 8-bit and 32-bit unsigned arithmetic, then the discovery is resubmitted. */
  function ApplyWake(m: Machine, i: nat): Machine {
    if !At(m, i, Sleeping) then m
    else
      Goto(m, i, Ready).(iter := (m.iter + 1) % UINT8_RANGE,
                         cycle := m.cycle * DISCOVERY_CYCLE_MULTIPLIER % UINT32_RANGE)
  }

  function ApplyPost(m: Machine, i: nat): Machine {
    if At(m, i, Posting) then ApplyUpdate(Goto(m, i, Done), Continue) else m
  }

  function Step(m: Machine, e: Event): Machine {
    match e
    case Update(flag) => ApplyUpdate(m, flag)
    case SetIface(name) => ApplyIface(m, name)
    case CheckFlag(i) => ApplyCheck(m, i)
    case ClearFlag(i) => ApplyClear(m, i)
    case Query(i, answer) => ApplyQuery(m, i, answer)
    case Wake(i) => ApplyWake(m, i)
    case Post(i) => ApplyPost(m, i)
  }

  function Run(m: Machine, events: seq<Event>): Machine
    decreases |events|
  {
    if events == [] then m else Run(Step(m, events[0]), events[1..])
  }

  lemma {:induction false} RunConcat(m: Machine, a: seq<Event>, b: seq<Event>)
    ensures Run(m, a + b) == Run(Run(m, a), b)
    decreases |a|
  {
    if a == [] {
      assert a + b == b;
    } else {
      assert (a + b)[0] == a[0] && (a + b)[1..] == a[1..] + b;
      RunConcat(Step(m, a[0]), a[1..], b);
    }
  }

  function StartCount(calls: seq<Call>): nat {
    if calls == [] then 0
    else StartCount(calls[..|calls| - 1]) + if calls[|calls| - 1].StartClat? then 1 else 0
  }
}

/** The service object itself: its fields change in place, each method against `Nat464Spec`. */
module Nat464 {
  import opened Nat464Spec

  class Nat464Service {
    var serviceState: ServiceState
    var v6Iface: string
    var v4TunIface: string
    var tryStopDiscovery: bool
    var discoveryCycleMs: nat
    var discoveryIter: nat
    var nat64PrefixFromDns: string
    var tasks: seq<Task>        // the discovery tasks submitted so far
    var netsysCalls: seq<Call>  // the StartClat/StopClat requests issued so far

    ghost function View(): Machine
      reads this
    {
      Machine(serviceState, v6Iface, v4TunIface, tryStopDiscovery, discoveryCycleMs, discoveryIter,
              nat64PrefixFromDns, tasks, netsysCalls)
    }

    constructor (v6Iface: string)
      ensures View() == Init(v6Iface)
      ensures serviceState == Idle && !tryStopDiscovery && nat64PrefixFromDns == ""
      ensures discoveryCycleMs == 100 && discoveryIter == 1 && this.v6Iface == v6Iface && v4TunIface == "tunv4-" + v6Iface
    {
      this.v6Iface := v6Iface;
      v4TunIface := CLAT_PREFIX + v6Iface;
      tryStopDiscovery := false;
      discoveryCycleMs := INITIAL_DISCOVERY_CYCLE_MS;
      discoveryIter := 1;
      serviceState := Idle;
      nat64PrefixFromDns := "";
      tasks, netsysCalls := [], [];
    }

    method MaybeUpdateV6Iface(name: string)
      modifies this
      ensures View() == Step(old(View()), SetIface(name))
    {
      if serviceState == Idle {
        v6Iface := name;
        v4TunIface := CLAT_PREFIX + name;
      }
    }

    method UpdateServiceState(flag: UpdateFlag)
      modifies this
      ensures View() == Step(old(View()), Update(flag))
    {
      match serviceState {
        case Idle =>
          if flag == Continue {
            StartPrefixDiscovery();
            serviceState := Discovering;
          }
        case Discovering =>
          if flag == Stop {
            StopPrefixDiscovery();
            serviceState := Idle;
          }
          if flag == Continue && nat64PrefixFromDns != "" {
            StartService();
            serviceState := Running;
          }
        case Running =>
          if flag == Stop {
            StopService();
            serviceState := Idle;
          }
      }
    }

    method StartPrefixDiscovery()
      modifies this`tasks
      ensures tasks == old(tasks) + [Task(Ready, 0, 0)]
    {
      tasks := tasks + [Task(Ready, 0, 0)];
    }

    method StopPrefixDiscovery()
      modifies this`tryStopDiscovery
      ensures tryStopDiscovery
    {
      tryStopDiscovery := true;
    }

    method StartService()
      modifies this`netsysCalls
      ensures netsysCalls == old(netsysCalls) +
                             if serviceState == Running then [] else [StartClat(v6Iface, nat64PrefixFromDns)]
    {
      if serviceState == Running {
        return;
      }
      netsysCalls := netsysCalls + [StartClat(v6Iface, nat64PrefixFromDns)];
    }

    method StopService()
      modifies this`netsysCalls, this`nat64PrefixFromDns
      ensures netsysCalls == old(netsysCalls) + [StopClat(v6Iface)] && nat64PrefixFromDns == ""
    {
      netsysCalls := netsysCalls + [StopClat(v6Iface)];
      nat64PrefixFromDns := "";
    }

    // DiscoverPrefix, cut where another task or the update queue can interleave.

    /** The read of the stop flag at the head of `DiscoverPrefix`. */
    method ReadStopFlag(i: nat)
      requires At(View(), i, Ready)
      modifies this`tasks
      ensures View() == Step(old(View()), CheckFlag(i))
    {
      if tryStopDiscovery {
        tasks := tasks[i := tasks[i].(pc := Clearing)];
      } else {
        tasks := tasks[i := tasks[i].(pc := Checked)];
      }
    }

    /** The body of the branch that gives up on a raised stop flag. */
    method LowerStopFlag(i: nat)
      requires At(View(), i, Clearing)
      modifies this
      ensures View() == Step(old(View()), ClearFlag(i))
    {
      tryStopDiscovery := false;
      discoveryCycleMs := INITIAL_DISCOVERY_CYCLE_MS;
      discoveryIter := 1;
      tasks := tasks[i := tasks[i].(pc := Done)];
    }

    /** The DNS64 query with its outcome, up to the post, the end or the sleep. */
    method QueryDns64(i: nat, answer: Answer)
      requires At(View(), i, Checked)
      modifies this
      ensures View() == Step(old(View()), Query(i, answer))
      ensures nat64PrefixFromDns == if answer.Found? then answer.address else old(nat64PrefixFromDns)
      ensures answer.NotFound? ==> tasks[i].pc == if old(discoveryCycleMs) > 100000 then Done else Sleeping
    {
      var t := tasks[i].(queries := tasks[i].queries + 1);
      if answer.Found? {
        nat64PrefixFromDns := answer.address;
        discoveryCycleMs := INITIAL_DISCOVERY_CYCLE_MS;
        discoveryIter := 1;
        tasks := tasks[i := t.(pc := Posting)];
      } else if discoveryCycleMs > MAX_DISCOVERY_CYCLE_MS {
        tasks := tasks[i := t.(pc := Done)];
      } else {
        tasks := tasks[i := t.(pc := Sleeping, slept := t.slept + discoveryCycleMs)];
      }
    }

    /** What follows the sleep: the backoff doubles and the discovery is submitted again. */
    method FinishSleep(i: nat)
      requires At(View(), i, Sleeping)
      modifies this
      ensures View() == Step(old(View()), Wake(i))
      ensures discoveryCycleMs == old(discoveryCycleMs) * 2 % 0x1_0000_0000 && discoveryIter == (old(discoveryIter) + 1) % 256
    {
      tasks := tasks[i := tasks[i].(pc := Ready)];
      discoveryIter := (discoveryIter + 1) % UINT8_RANGE;
      discoveryCycleMs := discoveryCycleMs * DISCOVERY_CYCLE_MULTIPLIER % UINT32_RANGE;
    }

    /** Its own CONTINUE, served by the queue; it then returns. */
    method PostContinue(i: nat)
      requires At(View(), i, Posting)
      modifies this
      ensures View() == Step(old(View()), Post(i))
    {
      tasks := tasks[i := tasks[i].(pc := Done)];
      UpdateServiceState(Continue);
    }
  }
}
