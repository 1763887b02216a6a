/**
 Route diffing.  Two route lists are compared, and the difference is issued to the kernel as
 adds (first those without a gateway) followed by removes.
 */
module RouteSpec {
  import opened Options
  import opened Arithmetic
  import opened PrefixMask

  const RTN_UNICAST := 1
  const RTN_UNREACHABLE := 7
  const RTN_THROW := 9
  const NEXTHOP_UNREACHABLE := "unreachable"
  const NEXTHOP_THROW := "throw"

  datatype INetAddr = INetAddr(kind: nat, family: nat, prefixLen: nat, address: string,
                               netMask: string, hostName: string, port: nat)

  datatype Route = Route(iface: string, destination: INetAddr, gateway: INetAddr, rtnType: int, mtu: int,
                         isHost: bool, hasGateway: bool, isDefaultRoute: bool, isExcludedRoute: bool)

  /** Route::operator==, which looks neither at the type, nor the mtu, nor hasGateway_. */
  predicate Same(a: Route, b: Route) {
    a.iface == b.iface && a.destination == b.destination && a.gateway == b.gateway
    && a.isExcludedRoute == b.isExcludedRoute
  }

  predicate Has(list: seq<Route>, r: Route) {
    exists i :: 0 <= i < |list| && Same(list[i], r)
  }

  /** inet_pton: the bytes of a text in a family, if it is an address of that family. */
  type Pton = (Family, string) -> Option<seq<byte>>

  ghost predicate Legal(pton: Pton) {
    forall af, s :: pton(af, s).Some? ==> |pton(af, s).value| == Width(af)
  }

  /** What identifies an entry of the kernel's table: NetworkAddRoute's interface, masked
      destination with its length, and next hop. */
  datatype KernelKey = KernelKey(iface: string, af: Family, net: seq<byte>, prefixLen: nat, nextHop: string)

  function NextHop(r: Route): string {
    if r.rtnType == RTN_UNICAST then (if r.hasGateway then r.gateway.address else "")
    else if r.rtnType == RTN_UNREACHABLE then NEXTHOP_UNREACHABLE
    else if r.rtnType == RTN_THROW then NEXTHOP_THROW
    else ""
  }

  /** None when the destination text is not an address of the family its length suggests. */
  function KeyOf(pton: Pton, r: Route): Option<KernelKey> {
    var p := r.destination.prefixLen;
    var af := FamilyOf(p);
    match pton(af, r.destination.address)
    case None => None
    case Some(bytes) => Some(KernelKey(r.iface, af, MaskedBytes(bytes, p), p, NextHop(r)))
  }

  /** `dest` is the parsed address of `n` bytes with all but its first `p` bits cleared, or none. */
  predicate Cleared(dest: Option<seq<byte>>, parsed: Option<seq<byte>>, n: nat, p: nat)
    requires p <= 8 * n
  {
    if parsed.None? then dest == None
    else
      && dest.Some? && |dest.value| == |parsed.value| == n
      && Value(dest.value) == Value(parsed.value) - Value(parsed.value) % Pow2(8 * n - p)
  }

  datatype Op = Add(key: KernelKey) | Remove(key: KernelKey)

  function Apply(table: set<KernelKey>, op: Op): set<KernelKey> {
    match op
    case Add(k) => table + {k}
    case Remove(k) => table - {k}
  }

  function ApplyAll(table: set<KernelKey>, ops: seq<Op>): set<KernelKey> {
    if ops == [] then table else Apply(ApplyAll(table, ops[..|ops| - 1]), ops[|ops| - 1])
  }

  /** The routes of `list` that no route of `other` equals, in order. */
  function Missing(list: seq<Route>, other: seq<Route>): seq<Route> {
    if list == [] then []
    else
      var r := list[|list| - 1];
      Missing(list[..|list| - 1], other) + if Has(other, r) then [] else [r]
  }

  function AddOps(pton: Pton, list: seq<Route>, withGateway: bool): seq<Op> {
    if list == [] then []
    else
      var r := list[|list| - 1];
      AddOps(pton, list[..|list| - 1], withGateway) +
      if r.hasGateway == withGateway && KeyOf(pton, r).Some? then [Add(KeyOf(pton, r).value)] else []
  }

  function RemoveOps(pton: Pton, list: seq<Route>): seq<Op> {
    if list == [] then []
    else
      var r := list[|list| - 1];
      RemoveOps(pton, list[..|list| - 1]) + if KeyOf(pton, r).Some? then [Remove(KeyOf(pton, r).value)] else []
  }

  function PlanOf(pton: Pton, added: seq<Route>, removed: seq<Route>): seq<Op> {
    AddOps(pton, added, false) + AddOps(pton, added, true) + RemoveOps(pton, removed)
  }

  function Plan(pton: Pton, newList: seq<Route>, oldList: seq<Route>): seq<Op> {
    PlanOf(pton, Missing(newList, oldList), Missing(oldList, newList))
  }

  /** The index of the first route of `list` equal to `r`, or |list|: std::find. */
  function Find(list: seq<Route>, r: Route): (i: nat)
    ensures i <= |list|
    ensures i < |list| ==> Same(list[i], r)
    ensures forall j :: 0 <= j < i ==> !Same(list[j], r)
    decreases |list|
  {
    if list == [] then 0
    else
      var n := |list| - 1;
      var i := Find(list[..n], r);
      if i < n || Same(list[n], r) then i else n + 1
  }

  /** Some old route's first match in the new list has another type or mtu. */
  predicate Altered(newList: seq<Route>, oldList: seq<Route>) {
    exists i :: 0 <= i < |oldList| && Has(newList, oldList[i]) &&
      var f := newList[Find(newList, oldList[i])];
      oldList[i].rtnType != f.rtnType || oldList[i].mtu != f.mtu
  }
}

module Routes {
  import opened Options
  import opened PrefixMask
  import opened RouteSpec

  /** The masked address, or None when the text is no address of the family the length suggests. */
  method MaskAddress(pton: Pton, addr: string, prefixLen: nat) returns (dest: Option<seq<byte>>)
    requires Legal(pton)
    ensures dest == match pton(FamilyOf(prefixLen), addr)
                    case None => None
                    case Some(bytes) => Some(MaskedBytes(bytes, prefixLen))
    ensures prefixLen <= 32 ==> Cleared(dest, pton(Inet, addr), 4, prefixLen)
    ensures 33 <= prefixLen <= 128 ==> Cleared(dest, pton(Inet6, addr), 16, prefixLen)
  {
    var af := FamilyOf(prefixLen);
    var parsed := pton(af, addr);
    if parsed.None? {
      return None;
    }
    var masked := MaskedCopy(parsed.value, prefixLen);
    dest := Some(masked);
    if prefixLen <= 128 {
      MaskedIsCleared(parsed.value, prefixLen);
    }
  }

  /** The parsed bytes in a buffer of sixteen, masked there. */
  method MaskedCopy(bytes: seq<byte>, prefixLen: nat) returns (masked: seq<byte>)
    requires |bytes| == Width(FamilyOf(prefixLen))
    ensures masked == MaskedBytes(bytes, prefixLen)
  {
    var buf := new byte[IPV6_UINT_LEN](_ => 0);
    forall i | 0 <= i < |bytes| {
      buf[i] := bytes[i];
    }
    assert buf[..|bytes|] == bytes;
    MaskInPlace(buf, prefixLen);
    masked := buf[..|bytes|];
  }

  lemma {:induction false} MaskedIsCleared(bytes: seq<byte>, prefixLen: nat)
    requires prefixLen <= 8 * |bytes|
    ensures Cleared(Some(MaskedBytes(bytes, prefixLen)), Some(bytes), |bytes|, prefixLen)
  {
    MaskIsTruncation(bytes, prefixLen);
  }

  class RouteTable {
    const pton: Pton
    ghost const initial: set<KernelKey>
    var entries: set<KernelKey>   // the kernel's table of one network
    var ops: seq<Op>              // the netsys requests issued so far, oldest first

    ghost predicate Valid()
      reads this
    {
      Legal(pton) && entries == ApplyAll(initial, ops)
    }

    constructor (pton: Pton, table: set<KernelKey>)
      requires Legal(pton)
      ensures this.pton == pton && entries == table && ops == [] && Valid()
    {
      this.pton, initial := pton, table;
      entries, ops := table, [];
    }

    method Issue(op: Op)
      requires Valid()
      modifies this
      ensures Valid() && ops == old(ops) + [op]
    {
      ApplyConcat(initial, ops, [op]);
      match op {
        case Add(k) => entries := entries + {k};
        case Remove(k) => entries := entries - {k};
      }
      ops := ops + [op];
    }

    method ModifyRoute(add: bool, route: Route) returns (ret: int)
      requires Valid()
      modifies this
      ensures Valid()
      ensures match KeyOf(pton, route)
              case None => ret == -1 && ops == old(ops)
              case Some(k) => ret == 0 && ops == old(ops) + [if add then Add(k) else Remove(k)]
    {
      ret := -1;
      var nextHop := "";
      if route.rtnType == RTN_UNICAST {
        if route.hasGateway {
          nextHop := route.gateway.address;
        }
      } else if route.rtnType == RTN_UNREACHABLE {
        nextHop := NEXTHOP_UNREACHABLE;
      } else if route.rtnType == RTN_THROW {
        nextHop := NEXTHOP_THROW;
      }
      var prefixLen := route.destination.prefixLen;
      var dest := MaskAddress(pton, route.destination.address, prefixLen);
      if dest.None? {
        return;
      }
      var key := KernelKey(route.iface, FamilyOf(prefixLen), dest.value, prefixLen, nextHop);
      ret := 0;
      Issue(if add then Add(key) else Remove(key));
    }

    method AddPass(added: seq<Route>, withGateway: bool)
      requires Valid()
      modifies this
      ensures Valid() && ops == old(ops) + AddOps(pton, added, withGateway)
    {
      for i := 0 to |added|
        invariant Valid() && ops == old(ops) + AddOps(pton, added[..i], withGateway)
      {
        AddOpsSnoc(pton, added, i, withGateway);
        if added[i].hasGateway != withGateway {
          continue;
        }
        var _ := ModifyRoute(true, added[i]);
      }
      assert added[..|added|] == added;
    }

    method RemovePass(removed: seq<Route>)
      requires Valid()
      modifies this
      ensures Valid() && ops == old(ops) + RemoveOps(pton, removed)
    {
      for i := 0 to |removed|
        invariant Valid() && ops == old(ops) + RemoveOps(pton, removed[..i])
      {
        RemoveOpsSnoc(pton, removed, i);
        var _ := ModifyRoute(false, removed[i]);
      }
      assert removed[..|removed|] == removed;
    }

    method IssueAll(added: seq<Route>, removed: seq<Route>)
      requires Valid()
      modifies this
      ensures var plan := PlanOf(pton, added, removed);
              Valid() && ops == old(ops) + plan && entries == ApplyAll(old(entries), plan)
    {
      ghost var before := ops;
      AddPass(added, false);
      AddPass(added, true);
      RemovePass(removed);
      assert ops == before + PlanOf(pton, added, removed);
      ApplyConcat(initial, before, PlanOf(pton, added, removed));
    }

    method UpdateRoutes(newList: seq<Route>, oldList: seq<Route>) returns (ret: int)
      requires Valid()
      modifies this
      ensures Valid() && ops == old(ops) + Plan(pton, newList, oldList)
      ensures entries == ApplyAll(old(entries), Plan(pton, newList, oldList))
      ensures ret == if Missing(newList, oldList) != [] || Altered(newList, oldList) || Missing(oldList, newList) != []
                     then 1 else 0
    {
      var added, updated, removed := Diff(newList, oldList);
      IssueAll(added, removed);
      ret := if added != [] || updated != [] || removed != [] then 1 else 0;
    }
  }

  /** The two loops that build the three lists. */
  method Diff(newList: seq<Route>, oldList: seq<Route>)
    returns (added: seq<Route>, updated: seq<Route>, removed: seq<Route>)
    ensures added == Missing(newList, oldList) && removed == Missing(oldList, newList)
    ensures updated != [] <==> Altered(newList, oldList)
  {
    added, updated, removed := [], [], [];
    for i := 0 to |oldList|
      invariant removed == Missing(oldList[..i], newList)
      invariant updated != [] <==> Altered(newList, oldList[..i])
    {
      assert oldList[..i + 1][..i] == oldList[..i];
      ExtendAltered(newList, oldList, i);
      var f := Find(newList, oldList[i]);
      if f == |newList| {
        removed := removed + [oldList[i]];
      } else if oldList[i].rtnType != newList[f].rtnType || oldList[i].mtu != newList[f].mtu {
        updated := updated + [newList[f]];
      }
    }
    assert oldList[..|oldList|] == oldList;

    for i := 0 to |newList|
      invariant added == Missing(newList[..i], oldList)
    {
      assert newList[..i + 1][..i] == newList[..i];
      if Find(oldList, newList[i]) == |oldList| {
        added := added + [newList[i]];
      }
    }
    assert newList[..|newList|] == newList;
  }

  lemma {:induction false} AddOpsSnoc(pton: Pton, list: seq<Route>, i: nat, g: bool)
    requires i < |list|
    ensures AddOps(pton, list[..i + 1], g) == AddOps(pton, list[..i], g) +
            if list[i].hasGateway == g && KeyOf(pton, list[i]).Some? then [Add(KeyOf(pton, list[i]).value)] else []
  {
    assert list[..i + 1][..i] == list[..i];
  }

  lemma {:induction false} RemoveOpsSnoc(pton: Pton, list: seq<Route>, i: nat)
    requires i < |list|
    ensures RemoveOps(pton, list[..i + 1]) == RemoveOps(pton, list[..i]) +
            if KeyOf(pton, list[i]).Some? then [Remove(KeyOf(pton, list[i]).value)] else []
  {
    assert list[..i + 1][..i] == list[..i];
  }

  lemma {:induction false} ExtendAltered(newList: seq<Route>, oldList: seq<Route>, i: nat)
    requires i < |oldList|
    ensures Altered(newList, oldList[..i + 1]) <==>
            || Altered(newList, oldList[..i])
            || (Has(newList, oldList[i]) &&
                var f := newList[Find(newList, oldList[i])];
                oldList[i].rtnType != f.rtnType || oldList[i].mtu != f.mtu)
  {
    var a, b := oldList[..i], oldList[..i + 1];
    assert forall j :: 0 <= j < i ==> a[j] == b[j];
    assert b[i] == oldList[i];
  }

  lemma {:induction false} ApplyConcat(table: set<KernelKey>, a: seq<Op>, b: seq<Op>)
    ensures ApplyAll(table, a + b) == ApplyAll(ApplyAll(table, a), b)
    decreases |b|
  {
    if b == [] {
      assert a + b == a;
    } else {
      assert (a + b)[..|a + b| - 1] == a + b[..|b| - 1];
      ApplyConcat(table, a, b[..|b| - 1]);
    }
  }

  lemma {:induction false} MissingMembers(list: seq<Route>, other: seq<Route>)
    ensures forall r :: r in Missing(list, other) <==> r in list && !Has(other, r)
  {
    if list != [] {
      MissingMembers(list[..|list| - 1], other);
      assert list == list[..|list| - 1] + [list[|list| - 1]];
    }
  }
}

/** What the issued operations do to the table. */
module RouteProofs {
  import opened Options
  import opened PrefixMask
  import opened RouteSpec
  import opened Routes

  function Image(pton: Pton, list: seq<Route>): set<KernelKey> {
    set r | r in list && KeyOf(pton, r).Some? :: KeyOf(pton, r).value
  }

  function Keys(ops: seq<Op>): set<KernelKey> {
    set op | op in ops :: op.key
  }

  /** Routes that address one kernel entry are equal as routes. */
  ghost predicate Injective(pton: Pton, list: seq<Route>) {
    forall a, b :: a in list && b in list && KeyOf(pton, a).Some? && KeyOf(pton, a) == KeyOf(pton, b) ==> Same(a, b)
  }

  function Kept(newList: seq<Route>, oldList: seq<Route>): seq<Route> {
    if oldList == [] then []
    else
      var r := oldList[|oldList| - 1];
      Kept(newList, oldList[..|oldList| - 1]) + if Has(newList, r) then [r] else []
  }

  lemma {:induction false} KeptMembers(newList: seq<Route>, oldList: seq<Route>)
    ensures forall r :: r in Kept(newList, oldList) <==> r in oldList && Has(newList, r)
  {
    if oldList != [] {
      KeptMembers(newList, oldList[..|oldList| - 1]);
      assert oldList == oldList[..|oldList| - 1] + [oldList[|oldList| - 1]];
    }
  }

  lemma {:induction false} AddOpsKeys(pton: Pton, list: seq<Route>, g: bool)
    ensures forall op :: op in AddOps(pton, list, g) ==> op.Add?
    ensures forall k :: Add(k) in AddOps(pton, list, g) <==>
              exists r :: r in list && r.hasGateway == g && KeyOf(pton, r) == Some(k)
  {
    if list != [] {
      var n := |list| - 1;
      AddOpsKeys(pton, list[..n], g);
      assert list == list[..n] + [list[n]];
      forall k ensures Add(k) in AddOps(pton, list, g) <==> exists r :: r in list && r.hasGateway == g && KeyOf(pton, r) == Some(k) {
        if Add(k) in AddOps(pton, list[..n], g) {
          var r :| r in list[..n] && r.hasGateway == g && KeyOf(pton, r) == Some(k);
          assert r in list;
        }
      }
    }
  }

  lemma {:induction false} RemoveOpsKeys(pton: Pton, list: seq<Route>)
    ensures forall op :: op in RemoveOps(pton, list) ==> op.Remove?
    ensures forall k :: Remove(k) in RemoveOps(pton, list) <==> k in Image(pton, list)
  {
    if list != [] {
      var n := |list| - 1;
      RemoveOpsKeys(pton, list[..n]);
      assert list == list[..n] + [list[n]];
      assert Image(pton, list) == Image(pton, list[..n]) + Image(pton, [list[n]]);
    }
  }

  lemma {:induction false} ApplyAdds(table: set<KernelKey>, ops: seq<Op>)
    requires forall op :: op in ops ==> op.Add?
    ensures ApplyAll(table, ops) == table + Keys(ops)
  {
    if ops != [] {
      var n := |ops| - 1;
      ApplyAdds(table, ops[..n]);
      assert ops == ops[..n] + [ops[n]];
      assert Keys(ops) == Keys(ops[..n]) + {ops[n].key};
    }
  }

  lemma {:induction false} ApplyRemoves(table: set<KernelKey>, ops: seq<Op>)
    requires forall op :: op in ops ==> op.Remove?
    ensures ApplyAll(table, ops) == table - Keys(ops)
  {
    if ops == [] {
      assert Keys(ops) == {};
    } else {
      var n := |ops| - 1;
      ApplyRemoves(table, ops[..n]);
      assert ops == ops[..n] + [ops[n]] && ops[n] in ops;
      assert Keys(ops) == Keys(ops[..n]) + {ops[n].key};
      assert ApplyAll(table, ops) == table - Keys(ops[..n]) - {ops[n].key};
    }
  }

  function Adds(pton: Pton, newList: seq<Route>, oldList: seq<Route>): seq<Op> {
    AddOps(pton, Missing(newList, oldList), false) + AddOps(pton, Missing(newList, oldList), true)
  }

  lemma {:induction false} AddsKeys(pton: Pton, newList: seq<Route>, oldList: seq<Route>)
    ensures forall op :: op in Adds(pton, newList, oldList) ==> op.Add?
    ensures Keys(Adds(pton, newList, oldList)) == Image(pton, Missing(newList, oldList))
  {
    var added := Missing(newList, oldList);
    var a, b := AddOps(pton, added, false), AddOps(pton, added, true);
    AddOpsKeys(pton, added, false);
    AddOpsKeys(pton, added, true);
    forall k ensures k in Keys(a + b) <==> k in Image(pton, added) {
      if k in Keys(a + b) {
        assert Add(k) in a || Add(k) in b;
      }
      if k in Image(pton, added) {
        var r :| r in added && KeyOf(pton, r) == Some(k);
        assert Add(k) in (if r.hasGateway then b else a);
        assert Add(k) in a + b;
      }
    }
  }

  lemma {:induction false} RemovesKeys(pton: Pton, newList: seq<Route>, oldList: seq<Route>)
    ensures Keys(RemoveOps(pton, Missing(oldList, newList))) == Image(pton, Missing(oldList, newList))
    ensures forall op :: op in RemoveOps(pton, Missing(oldList, newList)) ==> op.Remove?
  {
    var removed := Missing(oldList, newList);
    RemoveOpsKeys(pton, removed);
    forall k ensures k in Keys(RemoveOps(pton, removed)) <==> k in Image(pton, removed) {
      if k in Image(pton, removed) {
        assert Remove(k) in RemoveOps(pton, removed);
      }
    }
  }

  /** From any table: everything added, then everything removed. */
  lemma {:induction false} PlanEffect(pton: Pton, table: set<KernelKey>, newList: seq<Route>, oldList: seq<Route>)
    ensures ApplyAll(table, Plan(pton, newList, oldList))
         == table + Image(pton, Missing(newList, oldList)) - Image(pton, Missing(oldList, newList))
  {
    var adds := Adds(pton, newList, oldList);
    var removes := RemoveOps(pton, Missing(oldList, newList));
    ApplyConcat(table, adds, removes);
    AddsKeys(pton, newList, oldList);
    RemovesKeys(pton, newList, oldList);
    ApplyAdds(table, adds);
    ApplyRemoves(ApplyAll(table, adds), removes);
  }

  lemma {:induction false} InNew(newList: seq<Route>, r: Route)
    requires r in newList
    ensures Has(newList, r)
  {
    var i :| 0 <= i < |newList| && newList[i] == r;
    assert Same(newList[i], r);
  }

  /** An old route is kept or removed. */
  lemma {:induction false} KeptOrRemoved(pton: Pton, newList: seq<Route>, oldList: seq<Route>)
    ensures Image(pton, oldList) == Image(pton, Kept(newList, oldList)) + Image(pton, Missing(oldList, newList))
    ensures Image(pton, Missing(newList, oldList)) <= Image(pton, newList)
  {
    MissingMembers(oldList, newList);
    MissingMembers(newList, oldList);
    KeptMembers(newList, oldList);
    forall k | k in Image(pton, oldList)
      ensures k in Image(pton, Kept(newList, oldList)) + Image(pton, Missing(oldList, newList))
    {
      var r :| r in oldList && KeyOf(pton, r) == Some(k);
      assert r in Kept(newList, oldList) || r in Missing(oldList, newList);
    }
  }

  /** Starting from exactly the old list, whatever the lists: the unmatched new routes and the
      matched old ones, less the entries of the unmatched old ones. */
  lemma {:induction false} FinalTable(pton: Pton, newList: seq<Route>, oldList: seq<Route>)
    ensures ApplyAll(Image(pton, oldList), Plan(pton, newList, oldList))
         == Image(pton, Missing(newList, oldList)) + Image(pton, Kept(newList, oldList)) - Image(pton, Missing(oldList, newList))
  {
    PlanEffect(pton, Image(pton, oldList), newList, oldList);
    KeptOrRemoved(pton, newList, oldList);
  }

  /** The exact condition for the new list's entries, for all lists: none of them is also the entry of
      a removed route, every kept entry is wanted or removed, and every wanted one was there or added. */
  lemma {:induction false} FinalTableIsNewListIff(pton: Pton, newList: seq<Route>, oldList: seq<Route>)
    ensures var added, kept := Image(pton, Missing(newList, oldList)), Image(pton, Kept(newList, oldList));
            var removed, wanted := Image(pton, Missing(oldList, newList)), Image(pton, newList);
            ApplyAll(Image(pton, oldList), Plan(pton, newList, oldList)) == wanted <==>
              wanted !! removed && kept <= wanted + removed && wanted <= Image(pton, oldList) + added
  {
    var added, kept := Image(pton, Missing(newList, oldList)), Image(pton, Kept(newList, oldList));
    var removed, wanted := Image(pton, Missing(oldList, newList)), Image(pton, newList);
    FinalTable(pton, newList, oldList);
    KeptOrRemoved(pton, newList, oldList);
    var final := added + kept - removed;
    if final == wanted {
      forall k | k in kept && k !in removed ensures k in wanted {
        assert k in final;
      }
    }
  }

  /** A wanted route is missing in the end exactly when a removed route shares its entry, or it has a
      match in the old list and neither the old entries nor the added ones include its own. */
  lemma {:induction false} WantedRouteIsLostIff(pton: Pton, newList: seq<Route>, oldList: seq<Route>, r: Route)
    requires r in newList && KeyOf(pton, r).Some?
    ensures var k := KeyOf(pton, r).value;
            k !in ApplyAll(Image(pton, oldList), Plan(pton, newList, oldList)) <==>
              || k in Image(pton, Missing(oldList, newList))
              || (Has(oldList, r) && k !in Image(pton, oldList) + Image(pton, Missing(newList, oldList)))
  {
    PlanEffect(pton, Image(pton, oldList), newList, oldList);
    MissingMembers(newList, oldList);
    if !Has(oldList, r) {
      assert r in Missing(newList, oldList);
    }
  }

  /** With injective keys, a key that a wanted route needs is the key of no removed route. */
  lemma {:induction false} WantedNotRemoved(pton: Pton, newList: seq<Route>, oldList: seq<Route>, r: Route)
    requires Injective(pton, oldList + newList)
    requires r in oldList + newList && Has(newList, r) && KeyOf(pton, r).Some?
    ensures KeyOf(pton, r).value !in Image(pton, Missing(oldList, newList))
  {
    MissingMembers(oldList, newList);
    forall o | o in Missing(oldList, newList) && KeyOf(pton, o).Some?
      ensures KeyOf(pton, o) != KeyOf(pton, r)
    {
      assert o in oldList + newList;
      if Same(o, r) {
        MatchedAlike(newList, o, r);
      }
    }
  }

  lemma {:induction false} MatchedAlike(list: seq<Route>, o: Route, r: Route)
    requires Same(o, r)
    ensures Has(list, o) <==> Has(list, r)
  {
    forall i | 0 <= i < |list| ensures Same(list[i], o) <==> Same(list[i], r) {
    }
  }

  lemma {:induction false} NothingRemovedIsWanted(pton: Pton, newList: seq<Route>, oldList: seq<Route>)
    requires Injective(pton, oldList + newList)
    ensures Image(pton, Missing(newList, oldList)) + Image(pton, Kept(newList, oldList)) !! Image(pton, Missing(oldList, newList))
  {
    MissingMembers(newList, oldList);
    KeptMembers(newList, oldList);
    forall k | k in Image(pton, Missing(newList, oldList)) + Image(pton, Kept(newList, oldList))
      ensures k !in Image(pton, Missing(oldList, newList))
    {
      var r :| (r in Missing(newList, oldList) || r in Kept(newList, oldList)) && KeyOf(pton, r) == Some(k);
      if r in newList { InNew(newList, r); }
      WantedNotRemoved(pton, newList, oldList, r);
    }
  }

  /** Every matched route has a counterpart in the other list with the same next hop. */
  ghost predicate NextHopsAgree(pton: Pton, newList: seq<Route>, oldList: seq<Route>) {
    && (forall o :: o in oldList && Has(newList, o) && KeyOf(pton, o).Some? ==>
          exists n :: n in newList && Same(n, o) && NextHop(n) == NextHop(o))
    && (forall n :: n in newList && Has(oldList, n) && KeyOf(pton, n).Some? ==>
          exists o :: o in oldList && Same(o, n) && NextHop(o) == NextHop(n))
  }

  lemma {:induction false} SameKey(pton: Pton, a: Route, b: Route)
    requires Same(a, b)
    ensures NextHop(a) == NextHop(b) ==> KeyOf(pton, a) == KeyOf(pton, b)
    ensures KeyOf(pton, a).Some? && KeyOf(pton, a) == KeyOf(pton, b) ==> NextHop(a) == NextHop(b)
  {
  }

  /** With injective keys the update leaves exactly the new list in the table if and only if no
      matched route changed its next hop: a matched route is never issued again. */
  lemma {:induction false} FinalTableIsNewList(pton: Pton, newList: seq<Route>, oldList: seq<Route>)
    requires Injective(pton, oldList + newList)
    ensures ApplyAll(Image(pton, oldList), Plan(pton, newList, oldList)) == Image(pton, newList)
       <==> NextHopsAgree(pton, newList, oldList)
  {
    FinalTable(pton, newList, oldList);
    NothingRemovedIsWanted(pton, newList, oldList);
    MissingMembers(newList, oldList);
    KeptMembers(newList, oldList);
    var final := Image(pton, Missing(newList, oldList)) + Image(pton, Kept(newList, oldList));
    if NextHopsAgree(pton, newList, oldList) {
      forall k ensures k in final <==> k in Image(pton, newList) {
        if k in final {
          HopsForward(pton, newList, oldList, k);
        }
        if k in Image(pton, newList) {
          HopsBack(pton, newList, oldList, k);
        }
      }
    }
    if final == Image(pton, newList) {
      AgreeForward(pton, newList, oldList);
      AgreeBack(pton, newList, oldList);
    }
  }

  lemma {:induction false} HopsForward(pton: Pton, newList: seq<Route>, oldList: seq<Route>, k: KernelKey)
    requires NextHopsAgree(pton, newList, oldList)
    requires k in Image(pton, Missing(newList, oldList)) + Image(pton, Kept(newList, oldList))
    ensures k in Image(pton, newList)
  {
    MissingMembers(newList, oldList);
    KeptMembers(newList, oldList);
    if k !in Image(pton, Missing(newList, oldList)) {
      var o :| o in Kept(newList, oldList) && KeyOf(pton, o) == Some(k);
      var n :| n in newList && Same(n, o) && NextHop(n) == NextHop(o);
      SameKey(pton, n, o);
    }
  }

  lemma {:induction false} HopsBack(pton: Pton, newList: seq<Route>, oldList: seq<Route>, k: KernelKey)
    requires NextHopsAgree(pton, newList, oldList) && k in Image(pton, newList)
    ensures k in Image(pton, Missing(newList, oldList)) + Image(pton, Kept(newList, oldList))
  {
    MissingMembers(newList, oldList);
    KeptMembers(newList, oldList);
    var n :| n in newList && KeyOf(pton, n) == Some(k);
    if Has(oldList, n) {
      var o :| o in oldList && Same(o, n) && NextHop(o) == NextHop(n);
      SameKey(pton, o, n);
      InNewSame(newList, n, o);
      assert o in Kept(newList, oldList);
    } else {
      assert n in Missing(newList, oldList);
    }
  }

  lemma {:induction false} InNewSame(newList: seq<Route>, n: Route, o: Route)
    requires n in newList && Same(n, o)
    ensures Has(newList, o)
  {
    var i :| 0 <= i < |newList| && newList[i] == n;
    assert Same(newList[i], o);
  }

  lemma {:induction false} AgreeForward(pton: Pton, newList: seq<Route>, oldList: seq<Route>)
    requires Injective(pton, oldList + newList)
    requires Image(pton, Kept(newList, oldList)) <= Image(pton, newList)
    ensures forall o :: o in oldList && Has(newList, o) && KeyOf(pton, o).Some? ==>
              exists n :: n in newList && Same(n, o) && NextHop(n) == NextHop(o)
  {
    KeptMembers(newList, oldList);
    forall o | o in oldList && Has(newList, o) && KeyOf(pton, o).Some?
      ensures exists n :: n in newList && Same(n, o) && NextHop(n) == NextHop(o)
    {
      assert o in Kept(newList, oldList);
      assert KeyOf(pton, o).value in Image(pton, newList);
      var n :| n in newList && KeyOf(pton, n) == KeyOf(pton, o);
      assert n in oldList + newList && o in oldList + newList;
      SameKey(pton, n, o);
    }
  }

  lemma {:induction false} AgreeBack(pton: Pton, newList: seq<Route>, oldList: seq<Route>)
    requires Injective(pton, oldList + newList)
    requires Image(pton, newList) <= Image(pton, Missing(newList, oldList)) + Image(pton, Kept(newList, oldList))
    ensures forall n :: n in newList && Has(oldList, n) && KeyOf(pton, n).Some? ==>
              exists o :: o in oldList && Same(o, n) && NextHop(o) == NextHop(n)
  {
    MissingMembers(newList, oldList);
    KeptMembers(newList, oldList);
    forall n | n in newList && Has(oldList, n) && KeyOf(pton, n).Some?
      ensures exists o :: o in oldList && Same(o, n) && NextHop(o) == NextHop(n)
    {
      assert KeyOf(pton, n).value in Image(pton, newList);
      var r :| (r in Missing(newList, oldList) || r in Kept(newList, oldList)) && KeyOf(pton, r) == KeyOf(pton, n);
      assert r in oldList + newList && n in oldList + newList;
      assert Same(r, n);
      var i :| 0 <= i < |oldList| && Same(oldList[i], n);
      assert Same(oldList[i], r);
      assert r in oldList;
      SameKey(pton, r, n);
    }
  }

  /** For all lists: an old entry is in the table at every intermediate point if and only if no
      removed route has it. */
  lemma {:induction false} AlwaysThereIff(pton: Pton, newList: seq<Route>, oldList: seq<Route>, k: KernelKey)
    requires k in Image(pton, oldList)
    ensures (forall n :: 0 <= n <= |Plan(pton, newList, oldList)| ==>
               k in ApplyAll(Image(pton, oldList), Plan(pton, newList, oldList)[..n]))
       <==> k !in Image(pton, Missing(oldList, newList))
  {
    var plan := Plan(pton, newList, oldList);
    assert plan[..|plan|] == plan;
    PlanEffect(pton, Image(pton, oldList), newList, oldList);
    AddsKeys(pton, newList, oldList);
    RemovesKeys(pton, newList, oldList);
    if k !in Image(pton, Missing(oldList, newList)) {
      forall n | 0 <= n <= |plan| ensures k in ApplyAll(Image(pton, oldList), plan[..n]) {
        SurvivesPrefix(Image(pton, oldList), Adds(pton, newList, oldList), RemoveOps(pton, Missing(oldList, newList)), k, n);
      }
    }
  }

  /** So with injective keys each route common to both lists is there at every intermediate point. */
  lemma {:induction false} MakeBeforeBreak(pton: Pton, newList: seq<Route>, oldList: seq<Route>, r: Route, n: nat)
    requires Injective(pton, oldList + newList) && n <= |Plan(pton, newList, oldList)|
    requires r in oldList && Has(newList, r) && KeyOf(pton, r).Some?
    ensures KeyOf(pton, r).value in ApplyAll(Image(pton, oldList), Plan(pton, newList, oldList)[..n])
  {
    WantedNotRemoved(pton, newList, oldList, r);
    AlwaysThereIff(pton, newList, oldList, KeyOf(pton, r).value);
  }

  lemma {:induction false} SurvivesPrefix(table: set<KernelKey>, adds: seq<Op>, removes: seq<Op>, k: KernelKey, n: nat)
    requires forall op :: op in adds ==> op.Add?
    requires forall op :: op in removes ==> op.Remove?
    requires k in table && k !in Keys(removes) && n <= |adds + removes|
    ensures k in ApplyAll(table, (adds + removes)[..n])
  {
    if n <= |adds| {
      assert (adds + removes)[..n] == adds[..n] + [];
      Survives(table, adds[..n], [], k);
    } else {
      var some := removes[..n - |adds|];
      assert (adds + removes)[..n] == adds + some;
      Survives(table, adds, some, k);
    }
  }

  lemma {:induction false} Survives(table: set<KernelKey>, adds: seq<Op>, removes: seq<Op>, k: KernelKey)
    requires forall op :: op in adds ==> op.Add?
    requires forall op :: op in removes ==> op.Remove?
    requires k in table && k !in Keys(removes)
    ensures k in ApplyAll(table, adds + removes)
  {
    ApplyConcat(table, adds, removes);
    ApplyAdds(table, adds);
    ApplyRemoves(ApplyAll(table, adds), removes);
  }

  /** Nothing is removed before everything is added, whatever the lists. */
  lemma {:induction false} AddsBeforeRemoves(pton: Pton, newList: seq<Route>, oldList: seq<Route>, i: nat, j: nat)
    requires i <= j < |Plan(pton, newList, oldList)| && Plan(pton, newList, oldList)[i].Remove?
    ensures Plan(pton, newList, oldList)[j].Remove?
  {
    AddsKeys(pton, newList, oldList);
    RemovesKeys(pton, newList, oldList);
    var adds := Adds(pton, newList, oldList);
    assert forall k :: 0 <= k < |adds| ==> adds[k] in adds;
    var removes := RemoveOps(pton, Missing(oldList, newList));
    assert j >= |adds| ==> removes[j - |adds|] in removes;
  }

  /** The three reasons to report a change, told by the lists themselves. */
  lemma {:induction false} ReportedChange(newList: seq<Route>, oldList: seq<Route>)
    ensures Missing(newList, oldList) != [] <==> exists r :: r in newList && !Has(oldList, r)
    ensures Missing(oldList, newList) != [] <==> exists r :: r in oldList && !Has(newList, r)
  {
    MissingMembers(newList, oldList);
    MissingMembers(oldList, newList);
    assert Missing(newList, oldList) != [] ==> Missing(newList, oldList)[0] in newList;
    assert Missing(oldList, newList) != [] ==> Missing(oldList, newList)[0] in oldList;
  }

  /** What a route asks the kernel for: its interface; its destination, read as IPv4 up to a length of
      32 and as IPv6 above, cut to that length; and as next hop the gateway's address for a unicast
      route (type 1) that has one, "unreachable" for type 7, "throw" for type 9, else none. */
  lemma {:induction false} KeyMeans(pton: Pton, r: Route)
    requires Legal(pton) && r.destination.prefixLen <= 128
    ensures var p, text, key := r.destination.prefixLen, r.destination.address, KeyOf(pton, r);
            var net := if key.Some? then Some(key.value.net) else None;
            && (p <= 32 ==> Cleared(net, pton(Inet, text), 4, p))
            && (p > 32 ==> Cleared(net, pton(Inet6, text), 16, p))
    ensures KeyOf(pton, r).Some? ==>
      var k := KeyOf(pton, r).value;
      && k.iface == r.iface && k.prefixLen == r.destination.prefixLen
      && (r.rtnType == 1 && r.hasGateway ==> k.nextHop == r.gateway.address)
      && (r.rtnType == 1 && !r.hasGateway ==> k.nextHop == "")
      && (r.rtnType == 7 ==> k.nextHop == "unreachable")
      && (r.rtnType == 9 ==> k.nextHop == "throw")
      && (r.rtnType !in {1, 7, 9} ==> k.nextHop == "")
  {
    var p, text := r.destination.prefixLen, r.destination.address;
    var parsed := pton(FamilyOf(p), text);
    if parsed.Some? {
      MaskedIsCleared(parsed.value, p);
    }
  }

  /** Every operation issued adds the entry of a new route with no old match or removes that of an old
      route with no new match. */
  lemma {:induction false} IssuedForRoute(pton: Pton, newList: seq<Route>, oldList: seq<Route>, i: nat) returns (r: Route)
    requires i < |Plan(pton, newList, oldList)|
    ensures var op := Plan(pton, newList, oldList)[i];
            && KeyOf(pton, r) == Some(op.key)
            && (op.Add? ==> r in newList && !Has(oldList, r))
            && (op.Remove? ==> r in oldList && !Has(newList, r))
  {
    var plan := Plan(pton, newList, oldList);
    var op := plan[i];
    var adds, removes := Adds(pton, newList, oldList), RemoveOps(pton, Missing(oldList, newList));
    assert op in adds || op in removes by {
      assert op == if i < |adds| then adds[i] else removes[i - |adds|];
    }
    AddsKeys(pton, newList, oldList);
    RemovesKeys(pton, newList, oldList);
    MissingMembers(newList, oldList);
    MissingMembers(oldList, newList);
    var list := if op.Add? then Missing(newList, oldList) else Missing(oldList, newList);
    assert op.key in Image(pton, list) by {
      assert op.key in Keys(if op.Add? then adds else removes);
    }
    r :| r in list && KeyOf(pton, r) == Some(op.key);
  }

  /** Two routes compare equal just when they differ at most in type, mtu and the three flags isHost_,
      hasGateway_ and isDefaultRoute_. */
  lemma {:induction false} SameUpTo(a: Route, b: Route)
    ensures Same(a, b) <==>
      b == a.(rtnType := b.rtnType, mtu := b.mtu, isHost := b.isHost, hasGateway := b.hasGateway, isDefaultRoute := b.isDefaultRoute)
  {
  }

  /** Two routes share a kernel entry exactly when interface, prefix length, next hop and the
      first `prefixLen` bits of the destinations agree. */
  lemma {:induction false} SharedEntry(pton: Pton, a: Route, b: Route, p: nat)
    requires Legal(pton) && a.destination.prefixLen == b.destination.prefixLen == p <= 128
    requires KeyOf(pton, a).Some? && KeyOf(pton, b).Some?
    ensures var af, bits := if p <= 32 then Inet else Inet6, if p <= 32 then 32 else 128;
            var x, y := pton(af, a.destination.address).value, pton(af, b.destination.address).value;
            KeyOf(pton, a) == KeyOf(pton, b) <==>
              && a.iface == b.iface
              && (if a.rtnType == 1 && a.hasGateway then a.gateway.address
                  else if a.rtnType == 7 then "unreachable" else if a.rtnType == 9 then "throw" else "")
                 == (if b.rtnType == 1 && b.hasGateway then b.gateway.address
                     else if b.rtnType == 7 then "unreachable" else if b.rtnType == 9 then "throw" else "")
              && FirstBitsAgree(Value(x), Value(y), bits, p)
  {
    var x := pton(FamilyOf(p), a.destination.address).value;
    var y := pton(FamilyOf(p), b.destination.address).value;
    MaskedBytesLaws(x, y, p, p);
  }

  // ---------------------------------------------------------------------------------------
  // The hypotheses are needed.

  function Dest(netMask: string): INetAddr {
    INetAddr(1, 0, 8, "10.0.0.0", netMask, "", 0)
  }

  const GATEWAY := INetAddr(1, 0, 0, "10.0.0.1", "", "", 0)

  /** Two routes that differ only in their unused netMask_ text share a kernel entry: replacing
      one by the other adds the entry and then removes it. */
  lemma {:induction false} CollidingRoutesAreLost(pton: Pton)
    requires Legal(pton) && pton(Inet, "10.0.0.0").Some?
    ensures var a := Route("wlan0", Dest("255.0.0.0"), GATEWAY, RTN_UNICAST, 0, false, true, false, false);
            var b := a.(destination := Dest(""));
            Image(pton, [a]) != {} && ApplyAll(Image(pton, [b]), Plan(pton, [a], [b])) == {}
  {
    var a := Route("wlan0", Dest("255.0.0.0"), GATEWAY, RTN_UNICAST, 0, false, true, false, false);
    var b := a.(destination := Dest(""));
    assert !Same(a, b) && KeyOf(pton, a) == KeyOf(pton, b);
    assert Missing([a], [b]) == [a] by { LoneMissing(a, b); }
    assert Missing([b], [a]) == [b] by { LoneMissing(b, a); }
    LoneImage(pton, a);
    LoneImage(pton, b);
    PlanEffect(pton, Image(pton, [b]), [a], [b]);
  }

  lemma {:induction false} LoneMissing(a: Route, b: Route)
    requires !Same(b, a)
    ensures Missing([a], [b]) == [a]
  {
    assert [a][..0] == [] && !Has([b], a);
  }

  lemma {:induction false} LoneImage(pton: Pton, a: Route)
    requires KeyOf(pton, a).Some?
    ensures Image(pton, [a]) == {KeyOf(pton, a).value}
  {
    assert a in [a];
  }

  /** A route that turns unreachable keeps its old entry and never gets its new one, although
      the change is reported. */
  lemma {:induction false} RetypedRouteIsStale(pton: Pton)
    requires Legal(pton) && pton(Inet, "10.0.0.0").Some?
    ensures var o := Route("wlan0", Dest(""), GATEWAY, RTN_UNICAST, 0, false, true, false, false);
            var n := o.(rtnType := RTN_UNREACHABLE);
            && Altered([n], [o])
            && ApplyAll(Image(pton, [o]), Plan(pton, [n], [o])) == Image(pton, [o]) != Image(pton, [n])
  {
    var o := Route("wlan0", Dest(""), GATEWAY, RTN_UNICAST, 0, false, true, false, false);
    var n := o.(rtnType := RTN_UNREACHABLE);
    assert Same([o][0], n) && Same([n][0], o);
    assert Has([n], [o][0]) && Find([n], o) == 0;
    PlanEffect(pton, Image(pton, [o]), [n], [o]);
    assert Missing([n], [o]) == [] && Missing([o], [n]) == [];
    assert NextHop(o) == "10.0.0.1" && NextHop(n) == "unreachable";
    assert "10.0.0.1"[0] != "unreachable"[0];
    assert o in [o] && forall r :: r in [n] ==> r == n;
    assert KeyOf(pton, o).value in Image(pton, [o]) && KeyOf(pton, o).value !in Image(pton, [n]);
  }
}
