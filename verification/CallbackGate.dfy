/**
 The gate between the connection service and a client callback.  A frozen background app gets
 nothing and only the last event is remembered; a LOST can also be held back for a while.
 */
module GateSpec {
  import opened Options

  datatype CallbackType =
    | Unknown | Available | Losting | Lost | UpdateCap | UpdateLink | Unavailable | BlockStatus

  /** The gate's fields, with what reached the client so far.  `supply` is the network id of the
      supplier now serving the request, if it has one with a handle. */
  datatype Gate = Gate(
    frozen: bool,
    lastType: CallbackType,
    lastNetId: int,
    supply: Option<int>,
    lostDelay: bool,
    lostNetId: int,
    delivered: seq<CallbackType>)

  /** `limited`: freezing limits callbacks; `foreground`: the app is in the foreground. */
  datatype Event =
    | Notify(cb: CallbackType, limited: bool, foreground: bool)
    | SetFrozen(frozen: bool)
    | SetLostDelay(delay: bool)
    | SetLostNetId(id: int)
    | SetSupply(supply: Option<int>)
    | SetLastNetId(id: int)
    | SetLastType(cb: CallbackType)

  predicate IsUpdate(cb: CallbackType) {
    cb == UpdateCap || cb == UpdateLink
  }

  function Remember(last: CallbackType, cb: CallbackType): CallbackType {
    if IsUpdate(cb) && last == Available then last else cb
  }

  predicate Suppressed(g: Gate, limited: bool, foreground: bool) {
    limited && g.frozen && !foreground
  }

  function Suppress(g: Gate, cb: CallbackType): Gate {
    var id := if g.lastType != Lost && cb == Lost && g.lastNetId == 0 && g.supply.Some? then g.supply.value else g.lastNetId;
    g.(lastNetId := id, lastType := Remember(g.lastType, cb))
  }

  function Pass(g: Gate, cb: CallbackType): Gate {
    if g.lostDelay && cb == Lost then g
    else g.(lostDelay := false, lostNetId := 0, delivered := g.delivered + [cb])
  }

  function Step(g: Gate, e: Event): Gate {
    match e
    case Notify(cb, limited, foreground) => if Suppressed(g, limited, foreground) then Suppress(g, cb) else Pass(g, cb)
    case SetFrozen(b) => g.(frozen := b)
    case SetLostDelay(b) => g.(lostDelay := b)
    case SetLostNetId(id) => g.(lostNetId := id)
    case SetSupply(s) => g.(supply := s)
    case SetLastNetId(id) => g.(lastNetId := id)
    case SetLastType(cb) => g.(lastType := Remember(g.lastType, cb))
  }

  function Run(g: Gate, events: seq<Event>): Gate {
    if events == [] then g else Step(Run(g, events[..|events| - 1]), events[|events| - 1])
  }
}

module CallbackGate {
  import opened Options
  import opened GateSpec

  class NetActivate {
    var isAppFrozened: bool
    var lastCallbackType: CallbackType
    var lastNetId: int
    var netServiceSupplied: Option<int>
    var isNotifyLostDelay: bool
    var notifyLostNetId: int

    ghost function View(delivered: seq<CallbackType>): Gate
      reads this
    {
      Gate(isAppFrozened, lastCallbackType, lastNetId, netServiceSupplied, isNotifyLostDelay, notifyLostNetId, delivered)
    }

    constructor ()
      ensures View([]) == Gate(false, Unknown, 0, None, false, 0, [])
    {
      isAppFrozened, lastCallbackType, lastNetId := false, Unknown, 0;
      netServiceSupplied, isNotifyLostDelay, notifyLostNetId := None, false, 0;
    }

    /** `d` is what the client has received so far. */
    method SetLastCallbackType(callbackType: CallbackType, ghost d: seq<CallbackType>)
      modifies this`lastCallbackType
      ensures View(d) == Step(old(View(d)), SetLastType(callbackType))
      ensures lastCallbackType ==
        if callbackType in {UpdateCap, UpdateLink} && old(lastCallbackType) == Available then Available else callbackType
    {
      if (callbackType == UpdateCap || callbackType == UpdateLink) && lastCallbackType == Available {
        return;
      }
      lastCallbackType := callbackType;
    }

    method IsAllowCallback(callbackType: CallbackType, limited: bool, foreground: bool, ghost d: seq<CallbackType>)
      returns (allow: bool)
      modifies this
      ensures View(if allow then d + [callbackType] else d)
           == Step(old(View(d)), Notify(callbackType, limited, foreground))
      ensures allow <==> !(limited && old(isAppFrozened) && !foreground) && !(old(isNotifyLostDelay) && callbackType == Lost)
    {
      if limited && isAppFrozened && !foreground {
        if lastCallbackType != Lost && callbackType == Lost && lastNetId == 0 && netServiceSupplied.Some? {
          lastNetId := netServiceSupplied.value;
        }
        SetLastCallbackType(callbackType, d);
        return false;
      }
      if isNotifyLostDelay && callbackType == Lost {
        return false;
      }
      isNotifyLostDelay := false;
      notifyLostNetId := 0;
      return true;
    }
  }

  /** The only path to the client: `delivered` is what its callback received. */
  class NetConnCallbackProxyWrapper {
    var hasCallback: bool
    var netActivate: NetActivate?   // null once the request is gone
    var delivered: seq<CallbackType>

    constructor (hasCallback: bool, netActivate: NetActivate?)
      ensures this.hasCallback == hasCallback && this.netActivate == netActivate && delivered == []
    {
      this.hasCallback, this.netActivate, delivered := hasCallback, netActivate, [];
    }

    /** NetAvailable, NetLost and the other delivery methods, each with its own callback type. */
    method Deliver(cb: CallbackType, limited: bool, foreground: bool)
      modifies this`delivered, netActivate
      ensures !hasCallback ==> delivered == old(delivered)
      ensures hasCallback && netActivate == null ==> delivered == old(delivered) + [cb]
      ensures hasCallback && netActivate != null ==>
        netActivate.View(delivered) == Step(old(netActivate.View(delivered)), Notify(cb, limited, foreground))
      ensures hasCallback && netActivate != null ==>
        var held := (limited && old(netActivate.isAppFrozened) && !foreground)
                    || (old(netActivate.isNotifyLostDelay) && cb == Lost);
        delivered == old(delivered) + if held then [] else [cb]
    {
      if !hasCallback {
        return;
      }
      if netActivate != null {
        var allow := netActivate.IsAllowCallback(cb, limited, foreground, delivered);
        if !allow {
          return;
        }
      }
      delivered := delivered + [cb];
    }
  }
}

module GateProofs {
  import opened Options
  import opened GateSpec

  // ---------------------------------------------------------------------------------------
  // What reaches the client

  /** A callback reaches the client unless the app is frozen in the background where freezing limits
      callbacks, or it is a LOST while the delay is armed. */
  lemma {:induction false} DeliveredUnlessHeld(g: Gate, e: Event)
    ensures Step(g, e).delivered == g.delivered +
            if e.Notify? && !(e.limited && g.frozen && !e.foreground) && !(g.lostDelay && e.cb == Lost) then [e.cb] else []
  {
    assert g.delivered + [] == g.delivered;
  }

  /** The callbacks of a run that get through, each judged by the fields where it happens. */
  function Passing(g: Gate, events: seq<Event>): seq<CallbackType> {
    if events == [] then []
    else
      var n := |events| - 1;
      var m, e := Run(g, events[..n]), events[n];
      Passing(g, events[..n]) +
      if e.Notify? && !(e.limited && m.frozen && !e.foreground) && !(m.lostDelay && e.cb == Lost) then [e.cb] else []
  }

  /** In every run the client receives exactly those, in order. */
  lemma {:induction false} DeliveredIsPassing(g: Gate, events: seq<Event>)
    ensures Run(g, events).delivered == g.delivered + Passing(g, events)
    decreases |events|
  {
    if events == [] {
      assert g.delivered + [] == g.delivered;
    } else {
      var n := |events| - 1;
      DeliveredIsPassing(g, events[..n]);
      DeliveredUnlessHeld(Run(g, events[..n]), events[n]);
    }
  }

  /** All callbacks of a run. */
  function Notified(events: seq<Event>): seq<CallbackType> {
    if events == [] then []
    else Notified(events[..|events| - 1]) + if events[|events| - 1].Notify? then [events[|events| - 1].cb] else []
  }

  /** With no freezing and no arming the client receives every callback. */
  lemma {:induction false} NothingIsHeld(g: Gate, events: seq<Event>)
    requires !g.frozen && !g.lostDelay
    requires forall i :: 0 <= i < |events| ==> events[i] != SetFrozen(true) && events[i] != SetLostDelay(true)
    ensures Run(g, events).delivered == g.delivered + Notified(events)
    ensures !Run(g, events).frozen && !Run(g, events).lostDelay
    decreases |events|
  {
    if events == [] {
      assert g.delivered + [] == g.delivered;
    } else {
      var n := |events| - 1;
      NothingIsHeld(g, events[..n]);
      DeliveredUnlessHeld(Run(g, events[..n]), events[n]);
    }
  }

  // ---------------------------------------------------------------------------------------
  // A run of suppressed callbacks

  /** Every callback of the run is suppressed where it happens, and nothing else sets what is
      remembered; freezing, the supplier and the lost delay may change in between. */
  predicate AllSuppressed(g: Gate, events: seq<Event>) {
    events == [] ||
    var n := |events| - 1;
    && AllSuppressed(g, events[..n])
    && match events[n]
       case Notify(_, limited, foreground) => Suppressed(Run(g, events[..n]), limited, foreground)
       case SetLastNetId(_) => false
       case SetLastType(_) => false
       case _ => true
  }

  /** The starting type, then the types of the callbacks. */
  function Types(g: Gate, events: seq<Event>): (ts: seq<CallbackType>)
    ensures ts != []
  {
    if events == [] then [g.lastType]
    else
      var e := events[|events| - 1];
      Types(g, events[..|events| - 1]) + if e.Notify? then [e.cb] else []
  }

  function LastNonUpdate(ts: seq<CallbackType>): Option<CallbackType> {
    if ts == [] then None
    else if IsUpdate(ts[|ts| - 1]) then LastNonUpdate(ts[..|ts| - 1])
    else Some(ts[|ts| - 1])
  }

  /** Over every run of suppressed callbacks nothing is delivered; the remembered type is AVAILABLE
      exactly when the last event that is no update was, and otherwise it is the last event. */
  lemma {:induction false} WhatIsRemembered(g: Gate, events: seq<Event>)
    requires AllSuppressed(g, events)
    ensures Run(g, events).delivered == g.delivered
    ensures var ts := Types(g, events);
            Run(g, events).lastType == if LastNonUpdate(ts) == Some(Available) then Available else ts[|ts| - 1]
    decreases |events|
  {
    if events != [] {
      var n := |events| - 1;
      WhatIsRemembered(g, events[..n]);
      if events[n].Notify? {
        assert Types(g, events)[..|Types(g, events)| - 1] == Types(g, events[..n]);
      } else {
        assert Types(g, events) == Types(g, events[..n]);
      }
    }
  }

  /** At point `j` of the run a LOST is suppressed while a supplier with this id serves. */
  predicate LostAt(g: Gate, events: seq<Event>, j: nat, id: int)
    requires j < |events|
  {
    events[j].Notify? && events[j].cb == Lost && Run(g, events[..j]).supply == Some(id)
  }

  lemma {:induction false} NetIdStep(g: Gate, events: seq<Event>)
    requires events != [] && AllSuppressed(g, events)
    ensures var n := |events| - 1;
            var before, after := Run(g, events[..n]).lastNetId, Run(g, events).lastNetId;
            after != before ==> before == 0 && after != 0 && LostAt(g, events, n, after)
  {
  }

  lemma {:induction false} NonZeroStays(g: Gate, events: seq<Event>, n: nat)
    requires n <= |events| && AllSuppressed(g, events) && Run(g, events[..n]).lastNetId != 0
    ensures Run(g, events).lastNetId == Run(g, events[..n]).lastNetId
    decreases |events|
  {
    var last := |events| - 1;
    if n == |events| {
      assert events[..n] == events;
    } else {
      assert events[..last][..n] == events[..n];
      NonZeroStays(g, events[..last], n);
      NetIdStep(g, events);
    }
  }

  /** Over every such run the remembered network changes at most once, from 0 to the non-zero id of
      the supplier serving at a suppressed LOST. */
  lemma {:induction false} NetIdChangesOnce(g: Gate, events: seq<Event>, n: nat)
    requires n <= |events| && AllSuppressed(g, events)
    ensures var before, after := Run(g, events[..n]).lastNetId, Run(g, events).lastNetId;
            after != before ==>
              && before == 0 && g.lastNetId == 0 && after != 0
              && exists j :: n <= j < |events| && LostAt(g, events, j, after)
  {
    var before, after := Run(g, events[..n]).lastNetId, Run(g, events).lastNetId;
    assert events[..|events|] == events;
    if after != before {
      if before != 0 {
        NonZeroStays(g, events, n);
      }
      assert events[..0] == [];
      if g.lastNetId != 0 {
        NonZeroStays(g, events, 0);
        SuppressedPrefix(g, events, n);
        assert events[..n][..0] == [];
        NonZeroStays(g, events[..n], 0);
      }
      var j := WhereItChanged(g, events, n);
    }
  }

  /** A LOST after something else, while a supplier with a non-zero id serves. */
  predicate FreshLost(g: Gate, events: seq<Event>, j: nat)
    requires j < |events|
  {
    var m := Run(g, events[..j]);
    events[j].Notify? && events[j].cb == Lost && m.lastType != Lost && m.supply.Some? && m.supply.value != 0
  }

  /** Starting from no remembered network, a run of suppressed callbacks remembers one if and only if
      it has a fresh LOST, and it is the one serving at the first. */
  lemma {:induction false} NetIdIsFirstLost(g: Gate, events: seq<Event>)
    requires AllSuppressed(g, events) && g.lastNetId == 0
    ensures (forall j :: 0 <= j < |events| ==> !FreshLost(g, events, j)) ==> Run(g, events).lastNetId == 0
    ensures forall j :: 0 <= j < |events| && FirstLost(g, events, j) ==>
      Run(g, events).lastNetId == Run(g, events[..j]).supply.value
    decreases |events|
  {
    if events != [] {
      var n := |events| - 1;
      var init := events[..n];
      NetIdIsFirstLost(g, init);
      SameLost(g, events, n);
      if forall j :: 0 <= j < |events| ==> !FreshLost(g, events, j) {
        assert forall j :: 0 <= j < n ==> !FreshLost(g, init, j);
        assert !FreshLost(g, events, n);
      }
      forall j | 0 <= j < |events| && FirstLost(g, events, j)
        ensures Run(g, events).lastNetId == Run(g, events[..j]).supply.value
      {
        if j < n {
          assert init[..j] == events[..j] && FirstLost(g, init, j);
          NetIdStep(g, events);
        } else {
          assert Run(g, init).lastNetId == 0;
        }
      }
    }
  }

  ghost predicate FirstLost(g: Gate, events: seq<Event>, j: nat)
    requires j < |events|
  {
    FreshLost(g, events, j) && forall i :: 0 <= i < j ==> !FreshLost(g, events, i)
  }

  lemma {:induction false} SameLost(g: Gate, events: seq<Event>, n: nat)
    requires n <= |events|
    ensures forall i :: 0 <= i < n ==> (FreshLost(g, events[..n], i) <==> FreshLost(g, events, i))
  {
    forall i | 0 <= i < n ensures FreshLost(g, events[..n], i) <==> FreshLost(g, events, i) {
      assert events[..n][..i] == events[..i];
    }
  }

  lemma {:induction false} SuppressedPrefix(g: Gate, events: seq<Event>, n: nat)
    requires n <= |events| && AllSuppressed(g, events)
    ensures AllSuppressed(g, events[..n])
    decreases |events|
  {
    if n == |events| {
      assert events[..n] == events;
    } else {
      assert events[..|events| - 1][..n] == events[..n];
      SuppressedPrefix(g, events[..|events| - 1], n);
    }
  }

  lemma {:induction false} WhereItChanged(g: Gate, events: seq<Event>, n: nat) returns (j: nat)
    requires n < |events| && AllSuppressed(g, events) && Run(g, events).lastNetId != Run(g, events[..n]).lastNetId
    ensures n <= j < |events| && LostAt(g, events, j, Run(g, events).lastNetId)
    decreases |events|
  {
    var last := |events| - 1;
    var init := events[..last];
    NetIdStep(g, events);
    if Run(g, events).lastNetId != Run(g, init).lastNetId {
      j := last;
    } else {
      assert init[..n] == events[..n];
      j := WhereItChanged(g, init, n);
      assert init[..j] == events[..j];
    }
  }

  // ---------------------------------------------------------------------------------------
  // The lost delay

  predicate NeverDisarmed(events: seq<Event>) {
    forall i :: 0 <= i < |events| ==> events[i] != SetLostDelay(false)
  }

  /** From the arming of the delay until it is disarmed, the first callback to reach the client
      is no LOST; until one does, the delay stays armed. */
  lemma {:induction false} NoLostWhileDelayed(g: Gate, events: seq<Event>)
    requires g.lostDelay && NeverDisarmed(events)
    ensures var d := Run(g, events).delivered;
            && g.delivered <= d
            && (d == g.delivered ==> Run(g, events).lostDelay)
            && (d != g.delivered ==> d[|g.delivered|] != Lost)
  {
    if events != [] {
      var n := |events| - 1;
      assert NeverDisarmed(events[..n]);
      NoLostWhileDelayed(g, events[..n]);
    }
  }

  /** Whatever reaches the client leaves the delay disarmed and its network forgotten. */
  lemma {:induction false} DeliveryDisarms(g: Gate, e: Event)
    ensures Step(g, e).delivered != g.delivered ==>
      && e.Notify? && Step(g, e).delivered == g.delivered + [e.cb]
      && !Step(g, e).lostDelay && Step(g, e).lostNetId == 0
      && !Suppressed(g, e.limited, e.foreground) && !(g.lostDelay && e.cb == Lost)
  {
  }

  /** In every run, a delay that is armed was armed at some point (at the start, or by the event before
      it), and nothing at all has been delivered since. */
  lemma {:induction false} ArmedSinceLastDelivery(g: Gate, events: seq<Event>) returns (j: nat)
    requires Run(g, events).lostDelay
    ensures j <= |events| && Run(g, events[..j]).delivered == Run(g, events).delivered
    ensures if j == 0 then g.lostDelay else events[j - 1] == SetLostDelay(true)
    decreases |events|
  {
    assert events[..|events|] == events;
    if events == [] {
      j := 0;
    } else {
      var n := |events| - 1;
      if events[n] == SetLostDelay(true) {
        j := |events|;
      } else {
        DeliveryDisarms(Run(g, events[..n]), events[n]);
        j := ArmedSinceLastDelivery(g, events[..n]);
        assert events[..n][..j] == events[..j];
      }
    }
  }

  predicate OnlyLost(events: seq<Event>) {
    forall i :: 0 <= i < |events| ==> events[i].Notify? ==> events[i].cb == Lost
  }

  /** In particular no number of LOST notifications gets through on its own. */
  lemma {:induction false} LostAloneIsHeld(g: Gate, events: seq<Event>)
    requires g.lostDelay && NeverDisarmed(events) && OnlyLost(events)
    ensures Run(g, events).delivered == g.delivered
  {
    if events != [] {
      var n := |events| - 1;
      assert NeverDisarmed(events[..n]) && OnlyLost(events[..n]);
      LostAloneIsHeld(g, events[..n]);
      NoLostWhileDelayed(g, events[..n]);
    }
  }
}
