/** The firewall rules on the wire. */
module FirewallCodec {
  import opened Parcels

  const FIREWALL_MAX_LIST_SIZE: nat := 100
  const FAMILY_IPV4: nat := 1
  const MULTIPLE_IP: nat := 2
  const IPV6_ARRAY_SIZE: nat := 16

  function Zeros(n: nat): (s: seq<nat>)
    ensures |s| == n
  {
    if n == 0 then [] else Zeros(n - 1) + [0]
  }

  type Addr6 = s: seq<nat> | |s| == 16 witness [0, 0, 0, 0, 0, 0, 0, 0, 0, 0, 0, 0, 0, 0, 0, 0]

  datatype IpParam = IpParam(family: nat, kind: nat, mask: nat, start4: nat, end4: nat, start6: Addr6, end6: Addr6)

  datatype PortParam = PortParam(startPort: nat, endPort: nat)

  datatype DomainParam = DomainParam(isWildcard: bool, domain: string)

  datatype DnsParam = DnsParam(primaryDns: string, standbyDns: string)

  /** The rules that SetFirewallRules sends. */
  datatype Rule =
    | IpRule(userId: int, appUid: int, direction: int, action: int, protocol: int,
             localIps: seq<IpParam>, remoteIps: seq<IpParam>,
             localPorts: seq<PortParam>, remotePorts: seq<PortParam>, iface: string)
    | DomainRule(userId: int, appUid: int, action: int, domains: seq<DomainParam>)
    | DnsRule(userId: int, appUid: int, primaryDns: string, standbyDns: string)

  /** The external rule. */
  datatype FullRule = FullRule(
    ruleId: int, ruleName: string, ruleDescription: string, direction: int, action: int, ruleType: int,
    isEnabled: bool, appUid: int, localIps: seq<IpParam>, remoteIps: seq<IpParam>, protocol: int,
    localPorts: seq<PortParam>, remotePorts: seq<PortParam>, domains: seq<DomainParam>, dns: DnsParam,
    userId: int, iface: string)

  // ---------------------------------------------------------------------------------------
  // IP parameters

  /** Byte `i` of the start, then of the end if it is an address range. */
  function EncodeByte(p: IpParam, i: nat): seq<Token>
    requires i < IPV6_ARRAY_SIZE
  {
    [U8(p.start6[i])] + if p.kind == MULTIPLE_IP then [U8(p.end6[i])] else []
  }

  function EncodeV6(p: IpParam, n: nat): seq<Token>
    requires n <= IPV6_ARRAY_SIZE
  {
    if n == 0 then [] else EncodeV6(p, n - 1) + EncodeByte(p, n - 1)
  }

  function EncodeIp(p: IpParam): seq<Token> {
    [U8(p.family), U8(p.kind), U8(p.mask)] + EncodeAddress(p)
  }

  /** The two v6 addresses, from bytes whose reads are not checked. */
  datatype Pair6 = Pair6(start: seq<nat>, end: seq<nat>, rest: seq<Token>)

  function DecodeByte(kind: nat, r: Pair6): Pair6 {
    var s := ReadU8(r.rest, 0);
    var e := if kind == MULTIPLE_IP then ReadU8(s.rest, 0) else Read(true, 0, s.rest);
    Pair6(r.start + [s.value], r.end + [e.value], e.rest)
  }

  function DecodeV6(kind: nat, n: nat, ts: seq<Token>): (r: Pair6)
    ensures |r.start| == |r.end| == n
    ensures kind != MULTIPLE_IP ==> r.end == Zeros(n)
  {
    if n == 0 then Pair6([], [], ts) else DecodeByte(kind, DecodeV6(kind, n - 1, ts))
  }

  function DecodeIp(ts: seq<Token>): Read<IpParam> {
    var family := ReadU8(ts, 0);
    var kind := ReadU8(family.rest, 0);
    var zero := IpParam(family.value, kind.value, 0, 0, 0, Zeros(16), Zeros(16));
    if !kind.ok then Read(false, zero, kind.rest)
    else
      var mask := ReadU8(kind.rest, 0);
      DecodeAddress(zero.(mask := mask.value), mask.rest)
  }

  /** What survives the wire: only the active family, and no end address unless it is a range. */
  function NormIp(p: IpParam): IpParam {
    if p.family == FAMILY_IPV4
    then p.(start6 := Zeros(16), end6 := Zeros(16), end4 := if p.kind == MULTIPLE_IP then p.end4 else 0)
    else p.(start4 := 0, end4 := 0, end6 := if p.kind == MULTIPLE_IP then p.end6 else Zeros(16))
  }

  method WriteIpParam(parcel: Parcel, p: IpParam)
    modifies parcel
    ensures parcel.unread == old(parcel.unread) + EncodeIp(p)
  {
    parcel.Write(U8(p.family));
    parcel.Write(U8(p.kind));
    parcel.Write(U8(p.mask));
    if p.family == FAMILY_IPV4 {
      parcel.Write(U32(p.start4));
      if p.kind == MULTIPLE_IP {
        parcel.Write(U32(p.end4));
      }
      return;
    }
    ghost var head := parcel.unread;
    for i := 0 to IPV6_ARRAY_SIZE
      invariant parcel.unread == head + EncodeV6(p, i)
    {
      parcel.Write(U8(p.start6[i]));
      if p.kind == MULTIPLE_IP {
        parcel.Write(U8(p.end6[i]));
      }
    }
  }

  /** The byte loop of the reader. */
  method ReadV6(parcel: Parcel, kind: nat) returns (start: seq<nat>, end: seq<nat>)
    modifies parcel
    ensures Pair6(start, end, parcel.unread) == DecodeV6(kind, IPV6_ARRAY_SIZE, old(parcel.unread))
  {
    start, end := [], [];
    for i := 0 to IPV6_ARRAY_SIZE
      invariant Pair6(start, end, parcel.unread) == DecodeV6(kind, i, old(parcel.unread))
    {
      var _, s := parcel.TakeU8(0);
      var e: nat := 0;
      if kind == MULTIPLE_IP {
        var _, byte := parcel.TakeU8(0);
        e := byte;
      }
      start, end := start + [s], end + [e];
    }
  }

  method ReadIpParam(parcel: Parcel) returns (ok: bool, p: IpParam)
    modifies parcel
    ensures Read(ok, p, parcel.unread) == DecodeIp(old(parcel.unread))
  {
    var kind;
    var _, family := parcel.TakeU8(0);
    ok, kind := parcel.TakeU8(0);
    p := IpParam(family, kind, 0, 0, 0, Zeros(16), Zeros(16));
    if !ok {
      return;
    }
    var _, mask := parcel.TakeU8(0);
    p := p.(mask := mask);
    if family == FAMILY_IPV4 {
      var _, start := parcel.TakeU32(0);
      p := p.(start4 := start);
      if kind == MULTIPLE_IP {
        var _, end := parcel.TakeU32(0);
        p := p.(end4 := end);
      }
    } else {
      var start, end := ReadV6(parcel, kind);
      p := p.(start6 := start, end6 := end);
    }
  }

  lemma {:induction false} ByteRoundTrip(p: IpParam, i: nat, r: Pair6, rest: seq<Token>)
    requires i < IPV6_ARRAY_SIZE && r.rest == EncodeByte(p, i) + rest
    ensures DecodeByte(p.kind, r)
         == Pair6(r.start + [p.start6[i]], r.end + [if p.kind == MULTIPLE_IP then p.end6[i] else 0], rest)
  {
    if p.kind == MULTIPLE_IP {
      assert r.rest[1..] == [U8(p.end6[i])] + rest;
      assert r.rest[1..][1..] == rest;
    } else {
      assert r.rest[1..] == rest;
    }
  }

  /** The first `n` bytes of the end address as they come back. */
  function EndBytes(p: IpParam, n: nat): seq<nat>
    requires n <= IPV6_ARRAY_SIZE
  {
    if p.kind == MULTIPLE_IP then p.end6[..n] else Zeros(n)
  }

  lemma {:induction false} OneByteMore(p: IpParam, n: nat)
    requires n < IPV6_ARRAY_SIZE
    ensures p.start6[..n + 1] == p.start6[..n] + [p.start6[n]]
    ensures EndBytes(p, n + 1) == EndBytes(p, n) + [if p.kind == MULTIPLE_IP then p.end6[n] else 0]
  {
    assert p.end6[..n + 1] == p.end6[..n] + [p.end6[n]];
  }

  lemma {:induction false} V6RoundTrip(p: IpParam, n: nat, rest: seq<Token>)
    requires n <= IPV6_ARRAY_SIZE
    ensures DecodeV6(p.kind, n, EncodeV6(p, n) + rest) == Pair6(p.start6[..n], EndBytes(p, n), rest)
    decreases n
  {
    if n == 0 {
      assert EncodeV6(p, n) + rest == rest;
    } else {
      var m := n - 1;
      var tail := EncodeByte(p, m) + rest;
      V6RoundTrip(p, m, tail);
      Assoc(EncodeV6(p, m), EncodeByte(p, m), rest);
      ByteRoundTrip(p, m, Pair6(p.start6[..m], EndBytes(p, m), tail), rest);
      OneByteMore(p, m);
    }
  }

  /** What follows the family, type and mask. */
  function EncodeAddress(p: IpParam): seq<Token> {
    if p.family == FAMILY_IPV4
    then [U32(p.start4)] + (if p.kind == MULTIPLE_IP then [U32(p.end4)] else [])
    else EncodeV6(p, IPV6_ARRAY_SIZE)
  }

  function DecodeAddress(zero: IpParam, ts: seq<Token>): Read<IpParam> {
    if zero.family == FAMILY_IPV4 then
      var start := ReadU32(ts, 0);
      var end := if zero.kind == MULTIPLE_IP then ReadU32(start.rest, 0) else Read(true, 0, start.rest);
      Read(true, zero.(start4 := start.value, end4 := end.value), end.rest)
    else
      var p := DecodeV6(zero.kind, IPV6_ARRAY_SIZE, ts);
      Read(true, zero.(start6 := p.start, end6 := p.end), p.rest)
  }

  function Unaddressed(p: IpParam): IpParam {
    IpParam(p.family, p.kind, p.mask, 0, 0, Zeros(16), Zeros(16))
  }

  lemma {:induction false} AddressRoundTrip(p: IpParam, rest: seq<Token>)
    ensures DecodeAddress(Unaddressed(p), EncodeAddress(p) + rest) == Read(true, NormIp(p), rest)
  {
    if p.family == FAMILY_IPV4 {
      var end := (if p.kind == MULTIPLE_IP then [U32(p.end4)] else []) + rest;
      assert EncodeAddress(p) + rest == [U32(p.start4)] + end;
      PopU32(p.start4, end);
      if p.kind == MULTIPLE_IP {
        PopU32(p.end4, rest);
      } else {
        assert end == rest;
      }
    } else {
      V6RoundTrip(p, IPV6_ARRAY_SIZE, rest);
      assert p.start6[..16] == p.start6 && p.end6[..16] == p.end6;
    }
  }

  lemma {:induction false} IpRoundTrip(p: IpParam, rest: seq<Token>)
    ensures DecodeIp(EncodeIp(p) + rest) == Read(true, NormIp(p), rest)
  {
    var t0 := EncodeAddress(p) + rest;
    var t1 := [U8(p.mask)] + t0;
    var t2 := [U8(p.kind)] + t1;
    assert EncodeIp(p) + rest == [U8(p.family)] + t2;
    PopU8(p.family, t2);
    PopU8(p.kind, t1);
    PopU8(p.mask, t0);
    AddressRoundTrip(p, rest);
  }

  // ---------------------------------------------------------------------------------------
  // Ports, domains, DNS

  function EncodePort(p: PortParam): seq<Token> {
    [U16(p.startPort), U16(p.endPort)]
  }

  function DecodePort(ts: seq<Token>): Read<PortParam> {
    var s := ReadU16(ts, 0);
    if !s.ok then Read(false, PortParam(0, 0), s.rest)
    else
      var e := ReadU16(s.rest, 0);
      Read(e.ok, PortParam(s.value, e.value), e.rest)
  }

  lemma {:induction false} PortRoundTrip(p: PortParam, rest: seq<Token>)
    ensures DecodePort(EncodePort(p) + rest) == Read(true, p, rest)
  {
    assert (EncodePort(p) + rest)[1..][1..] == rest;
  }

  function EncodeDomain(d: DomainParam): seq<Token> {
    [Flag(d.isWildcard), Str(d.domain)]
  }

  function DecodeDomain(ts: seq<Token>): Read<DomainParam> {
    var w := ReadFlag(ts, false);
    if !w.ok then Read(false, DomainParam(false, ""), w.rest)
    else
      var d := ReadStr(w.rest, "");
      Read(d.ok, DomainParam(w.value, d.value), d.rest)
  }

  lemma {:induction false} DomainRoundTrip(d: DomainParam, rest: seq<Token>)
    ensures DecodeDomain(EncodeDomain(d) + rest) == Read(true, d, rest)
  {
    assert (EncodeDomain(d) + rest)[1..][1..] == rest;
  }

  /** The standby server's read is not checked. */
  function DecodeDns(ts: seq<Token>): Read<DnsParam> {
    var p := ReadStr(ts, "");
    if !p.ok then Read(false, DnsParam("", ""), p.rest)
    else
      var s := ReadStr(p.rest, "");
      Read(true, DnsParam(p.value, s.value), s.rest)
  }

  // ---------------------------------------------------------------------------------------
  // Lists of at most 100 items

  function IpList(xs: seq<IpParam>): seq<Token> {
    EncodeList(EncodeIp, FIREWALL_MAX_LIST_SIZE, xs)
  }

  function PortList(xs: seq<PortParam>): seq<Token> {
    EncodeList(EncodePort, FIREWALL_MAX_LIST_SIZE, xs)
  }

  function DomainList(xs: seq<DomainParam>): seq<Token> {
    EncodeList(EncodeDomain, FIREWALL_MAX_LIST_SIZE, xs)
  }

  function ReadIps(ts: seq<Token>): Read<seq<IpParam>> {
    DecodeList(DecodeIp, FIREWALL_MAX_LIST_SIZE, ts)
  }

  function ReadPorts(ts: seq<Token>): Read<seq<PortParam>> {
    DecodeList(DecodePort, FIREWALL_MAX_LIST_SIZE, ts)
  }

  function ReadDomains(ts: seq<Token>): Read<seq<DomainParam>> {
    DecodeList(DecodeDomain, FIREWALL_MAX_LIST_SIZE, ts)
  }

  function Cut<T>(xs: seq<T>): seq<T> {
    xs[..Min(|xs|, FIREWALL_MAX_LIST_SIZE)]
  }

  function NormIps(xs: seq<IpParam>): seq<IpParam> {
    Map(NormIp, Cut(xs))
  }

  method MarshallingList<T>(enc: T -> seq<Token>, list: seq<T>, parcel: Parcel)
    requires |list| < 0x1_0000_0000
    modifies parcel
    ensures parcel.unread == old(parcel.unread) + EncodeList(enc, FIREWALL_MAX_LIST_SIZE, list)
  {
    var size := Min(|list|, FIREWALL_MAX_LIST_SIZE);
    parcel.Write(U32(size));
    ghost var head := parcel.unread;
    for index := 0 to size
      invariant parcel.unread == head + EncodeAll(enc, list[..index])
    {
      parcel.Append(enc(list[index]));
      assert list[..index + 1][..index] == list[..index];
    }
  }

  method UnmarshallingList<T>(dec: seq<Token> -> Read<T>, parcel: Parcel) returns (ok: bool, list: seq<T>)
    modifies parcel
    ensures Read(ok, list, parcel.unread) == DecodeList(dec, FIREWALL_MAX_LIST_SIZE, old(parcel.unread))
  {
    list := [];
    var size := ReadU32(parcel.unread, 0);
    if !size.ok {
      return false, [];
    }
    parcel.unread := size.rest;
    var n := Min(size.value, FIREWALL_MAX_LIST_SIZE);
    ghost var items := parcel.unread;
    for i := 0 to n
      invariant Read(true, list, parcel.unread) == DecodeItems(dec, i, items)
    {
      var value := dec(parcel.unread);
      parcel.unread := value.rest;
      if !value.ok {
        FailureSticks(dec, i + 1, n, items);
        return false, list;
      }
      list := list + [value.value];
    }
    ok := true;
  }

  lemma {:induction false} IpsRoundTrip(xs: seq<IpParam>, rest: seq<Token>)
    ensures ReadIps(IpList(xs) + rest) == Read(true, NormIps(xs), rest)
  {
    forall p, t ensures DecodeIp(EncodeIp(p) + t) == Read(true, NormIp(p), t) { IpRoundTrip(p, t); }
    ListRoundTrip(EncodeIp, DecodeIp, NormIp, FIREWALL_MAX_LIST_SIZE, xs, rest);
  }

  lemma {:induction false} PortsRoundTrip(xs: seq<PortParam>, rest: seq<Token>)
    ensures ReadPorts(PortList(xs) + rest) == Read(true, Cut(xs), rest)
  {
    forall p, t ensures DecodePort(EncodePort(p) + t) == Read(true, p, t) { PortRoundTrip(p, t); }
    ListRoundTrip(EncodePort, DecodePort, Identity, FIREWALL_MAX_LIST_SIZE, xs, rest);
    IdentityMap(Cut(xs));
  }

  lemma {:induction false} DomainsRoundTrip(xs: seq<DomainParam>, rest: seq<Token>)
    ensures ReadDomains(DomainList(xs) + rest) == Read(true, Cut(xs), rest)
  {
    forall d, t ensures DecodeDomain(EncodeDomain(d) + t) == Read(true, d, t) { DomainRoundTrip(d, t); }
    ListRoundTrip(EncodeDomain, DecodeDomain, Identity, FIREWALL_MAX_LIST_SIZE, xs, rest);
    IdentityMap(Cut(xs));
  }

  // ---------------------------------------------------------------------------------------
  // The rules SetFirewallRules sends

  /** The four lists and the interface of an IP rule. */
  function EncodeIpBody(r: Rule): seq<Token>
    requires r.IpRule?
  {
    IpList(r.localIps) + (IpList(r.remoteIps) + (PortList(r.localPorts) + (PortList(r.remotePorts) + [Str(r.iface)])))
  }

  function EncodeIpHead(r: Rule): seq<Token>
    requires r.IpRule?
  {
    [I32(r.userId), I32(r.appUid), I32(r.direction), I32(r.action), I32(r.protocol)]
  }

  function EncodeRule(r: Rule): seq<Token> {
    match r
    case IpRule(_, _, _, _, _, _, _, _, _, _) =>
      EncodeIpHead(r) + EncodeIpBody(r)
    case DomainRule(_, _, _, _) => [I32(r.userId), I32(r.appUid), I32(r.action)] + DomainList(r.domains)
    case DnsRule(_, _, _, _) => [I32(r.userId), I32(r.appUid), Str(r.primaryDns), Str(r.standbyDns)]
  }

  /** Reads of lists and interface are not checked. */
  function DecodeIpBody(head: Rule, ts: seq<Token>): Read<Rule>
    requires head.IpRule?
  {
    var localIps := ReadIps(ts);
    var remoteIps := ReadIps(localIps.rest);
    var localPorts := ReadPorts(remoteIps.rest);
    var remotePorts := ReadPorts(localPorts.rest);
    var iface := ReadStr(remotePorts.rest, "");
    Read(true,
         head.(localIps := localIps.value, remoteIps := remoteIps.value,
               localPorts := localPorts.value, remotePorts := remotePorts.value, iface := iface.value),
         iface.rest)
  }

  function DecodeIpHead(ts: seq<Token>): (r: Read<Rule>)
    ensures r.value.IpRule?
  {
    var userId := ReadI32(ts, 0);
    var appUid := ReadI32(userId.rest, 0);
    var direction := ReadI32(appUid.rest, 0);
    var blank := IpRule(userId.value, appUid.value, direction.value, 0, 0, [], [], [], [], "");
    if !direction.ok then Read(false, blank, direction.rest)
    else
      var action := ReadI32(direction.rest, 0);
      if !action.ok then Read(false, blank, action.rest)
      else
        var protocol := ReadI32(action.rest, 0);
        Read(true, blank.(action := action.value, protocol := protocol.value), protocol.rest)
  }

  function DecodeIpRule(ts: seq<Token>): Read<Rule> {
    var head := DecodeIpHead(ts);
    if head.ok then DecodeIpBody(head.value, head.rest) else head
  }

  function DecodeDomainRule(ts: seq<Token>): Read<Rule> {
    var userId := ReadI32(ts, 0);
    var appUid := ReadI32(userId.rest, 0);
    var action := ReadI32(appUid.rest, 0);
    if !action.ok then Read(false, DomainRule(userId.value, appUid.value, 0, []), action.rest)
    else
      var domains := ReadDomains(action.rest);
      Read(true, DomainRule(userId.value, appUid.value, action.value, domains.value), domains.rest)
  }

  function DecodeDnsRule(ts: seq<Token>): Read<Rule> {
    var userId := ReadI32(ts, 0);
    var appUid := ReadI32(userId.rest, 0);
    var primary := ReadStr(appUid.rest, "");
    if !primary.ok then Read(false, DnsRule(userId.value, appUid.value, "", ""), primary.rest)
    else
      var standby := ReadStr(primary.rest, "");
      Read(true, DnsRule(userId.value, appUid.value, primary.value, standby.value), standby.rest)
  }

  function NormRule(r: Rule): Rule {
    match r
    case IpRule(_, _, _, _, _, _, _, _, _, _) =>
      r.(localIps := NormIps(r.localIps), remoteIps := NormIps(r.remoteIps),
         localPorts := Cut(r.localPorts), remotePorts := Cut(r.remotePorts))
    case DomainRule(_, _, _, _) => r.(domains := Cut(r.domains))
    case DnsRule(_, _, _, _) => r
  }

  lemma {:induction false} IpBodyRoundTrip(r: Rule, rest: seq<Token>)
    requires r.IpRule?
    ensures DecodeIpBody(r.(localIps := [], remoteIps := [], localPorts := [], remotePorts := [], iface := ""),
                         EncodeIpBody(r) + rest) == Read(true, NormRule(r), rest)
  {
    var t4 := [Str(r.iface)] + rest;
    var t3 := PortList(r.remotePorts) + t4;
    var t2 := PortList(r.localPorts) + t3;
    var t1 := IpList(r.remoteIps) + t2;
    assert EncodeIpBody(r) + rest == IpList(r.localIps) + t1 by {
      var e3 := PortList(r.remotePorts) + [Str(r.iface)];
      var e2 := PortList(r.localPorts) + e3;
      Assoc(IpList(r.localIps), IpList(r.remoteIps) + e2, rest);
      Assoc(IpList(r.remoteIps), e2, rest);
      Assoc(PortList(r.localPorts), e3, rest);
      Assoc(PortList(r.remotePorts), [Str(r.iface)], rest);
    }
    IpsRoundTrip(r.localIps, t1);
    IpsRoundTrip(r.remoteIps, t2);
    PortsRoundTrip(r.localPorts, t3);
    PortsRoundTrip(r.remotePorts, t4);
    PopStr(r.iface, rest);
  }

  lemma {:induction false} IpHeadRoundTrip(r: Rule, t0: seq<Token>)
    requires r.IpRule?
    ensures DecodeIpHead(EncodeIpHead(r) + t0)
         == Read(true, r.(localIps := [], remoteIps := [], localPorts := [], remotePorts := [], iface := ""), t0)
  {
    var t1 := [I32(r.protocol)] + t0;
    var t2 := [I32(r.action)] + t1;
    var t3 := [I32(r.direction)] + t2;
    var t4 := [I32(r.appUid)] + t3;
    assert EncodeIpHead(r) + t0 == [I32(r.userId)] + t4;
    PopI32(r.userId, t4);
    PopI32(r.appUid, t3);
    PopI32(r.direction, t2);
    PopI32(r.action, t1);
    PopI32(r.protocol, t0);
  }

  lemma {:induction false} IpRuleRoundTrip(r: Rule, rest: seq<Token>)
    requires r.IpRule?
    ensures DecodeIpRule(EncodeRule(r) + rest) == Read(true, NormRule(r), rest)
  {
    Assoc(EncodeIpHead(r), EncodeIpBody(r), rest);
    IpHeadRoundTrip(r, EncodeIpBody(r) + rest);
    IpBodyRoundTrip(r, rest);
  }

  lemma {:induction false} DomainRuleRoundTrip(r: Rule, rest: seq<Token>)
    requires r.DomainRule?
    ensures DecodeDomainRule(EncodeRule(r) + rest) == Read(true, NormRule(r), rest)
  {
    var t0 := DomainList(r.domains) + rest;
    var t1 := [I32(r.action)] + t0;
    var t2 := [I32(r.appUid)] + t1;
    assert EncodeRule(r) + rest == [I32(r.userId)] + t2;
    PopI32(r.userId, t2);
    PopI32(r.appUid, t1);
    PopI32(r.action, t0);
    DomainsRoundTrip(r.domains, rest);
  }

  lemma {:induction false} DnsRuleRoundTrip(r: Rule, rest: seq<Token>)
    requires r.DnsRule?
    ensures DecodeDnsRule(EncodeRule(r) + rest) == Read(true, NormRule(r), rest)
  {
    var t1 := [Str(r.standbyDns)] + rest;
    var t2 := [Str(r.primaryDns)] + t1;
    var t3 := [I32(r.appUid)] + t2;
    assert EncodeRule(r) + rest == [I32(r.userId)] + t3;
    PopI32(r.userId, t3);
    PopI32(r.appUid, t2);
    PopStr(r.primaryDns, t1);
    PopStr(r.standbyDns, rest);
  }

  // ---------------------------------------------------------------------------------------
  // The external rule

  function EncodeFullTail(r: FullRule): seq<Token> {
    PortList(r.localPorts) + (PortList(r.remotePorts) + (DomainList(r.domains) +
      [Str(r.dns.primaryDns), Str(r.dns.standbyDns), I32(r.userId), Str(r.iface)]))
  }

  function EncodeFullBody(r: FullRule): seq<Token> {
    IpList(r.localIps) + (IpList(r.remoteIps) + ([I32(r.protocol)] + EncodeFullTail(r)))
  }

  function EncodeFullHead(r: FullRule): seq<Token> {
    [I32(r.ruleId), Str(r.ruleName), Str(r.ruleDescription), I32(r.direction), I32(r.action), I32(r.ruleType),
     Flag(r.isEnabled), I32(r.appUid)]
  }

  function EncodeFull(r: FullRule): seq<Token> {
    EncodeFullHead(r) + EncodeFullBody(r)
  }

  function DecodeFullTail(head: FullRule, ts: seq<Token>): Read<FullRule> {
    var localPorts := ReadPorts(ts);
    var remotePorts := ReadPorts(localPorts.rest);
    var domains := ReadDomains(remotePorts.rest);
    var dns := DecodeDns(domains.rest);
    var userId := ReadI32(dns.rest, 0);
    var r := head.(localPorts := localPorts.value, remotePorts := remotePorts.value, domains := domains.value,
                   dns := if dns.ok then dns.value else DnsParam("", ""), userId := userId.value);
    if !userId.ok then Read(false, r, userId.rest)
    else
      var iface := ReadStr(userId.rest, "");
      Read(true, r.(iface := iface.value), iface.rest)
  }

  function DecodeFullBody(head: FullRule, ts: seq<Token>): Read<FullRule> {
    var localIps := ReadIps(ts);
    var remoteIps := ReadIps(localIps.rest);
    var protocol := ReadI32(remoteIps.rest, 0);
    DecodeFullTail(head.(localIps := localIps.value, remoteIps := remoteIps.value, protocol := protocol.value), protocol.rest)
  }

  function Blank(): FullRule {
    FullRule(0, "", "", 0, 0, 0, false, 0, [], [], 0, [], [], [], DnsParam("", ""), 0, "")
  }

  /** The header: rule name, direction, action and type must be there. */
  function DecodeFullHead(ts: seq<Token>): Read<FullRule> {
    var ruleId := ReadI32(ts, 0);
    var name := ReadStr(ruleId.rest, "");
    if !name.ok then Read(false, Blank(), name.rest)
    else
      var description := ReadStr(name.rest, "");
      var direction := ReadI32(description.rest, 0);
      if !direction.ok then Read(false, Blank(), direction.rest)
      else
        var action := ReadI32(direction.rest, 0);
        if !action.ok then Read(false, Blank(), action.rest)
        else
          var ruleType := ReadI32(action.rest, 0);
          if !ruleType.ok then Read(false, Blank(), ruleType.rest)
          else
            var isEnabled := ReadFlag(ruleType.rest, false);
            var appUid := ReadI32(isEnabled.rest, 0);
            Read(true,
                 Blank().(ruleId := ruleId.value, ruleName := name.value, ruleDescription := description.value,
                          direction := direction.value, action := action.value, ruleType := ruleType.value,
                          isEnabled := isEnabled.value, appUid := appUid.value),
                 appUid.rest)
  }

  function DecodeFull(ts: seq<Token>): Read<FullRule> {
    var head := DecodeFullHead(ts);
    if head.ok then DecodeFullBody(head.value, head.rest) else head
  }

  function NormFull(r: FullRule): FullRule {
    r.(localIps := NormIps(r.localIps), remoteIps := NormIps(r.remoteIps),
       localPorts := Cut(r.localPorts), remotePorts := Cut(r.remotePorts), domains := Cut(r.domains))
  }

  /** The rule's header fields, everything after them blank. */
  function HeadOf(r: FullRule): FullRule {
    Blank().(ruleId := r.ruleId, ruleName := r.ruleName, ruleDescription := r.ruleDescription,
             direction := r.direction, action := r.action, ruleType := r.ruleType,
             isEnabled := r.isEnabled, appUid := r.appUid)
  }

  lemma {:induction false} FullTailRoundTrip(r: FullRule, head: FullRule, rest: seq<Token>)
    ensures DecodeFullTail(head, EncodeFullTail(r) + rest)
         == Read(true, head.(localPorts := Cut(r.localPorts), remotePorts := Cut(r.remotePorts), domains := Cut(r.domains),
                             dns := r.dns, userId := r.userId, iface := r.iface), rest)
  {
    var t1 := [Str(r.iface)] + rest;
    var t2 := [I32(r.userId)] + t1;
    var t3 := [Str(r.dns.standbyDns)] + t2;
    var t4 := [Str(r.dns.primaryDns)] + t3;
    var t5 := DomainList(r.domains) + t4;
    var t6 := PortList(r.remotePorts) + t5;
    assert EncodeFullTail(r) + rest == PortList(r.localPorts) + t6 by {
      var e := [Str(r.dns.primaryDns), Str(r.dns.standbyDns), I32(r.userId), Str(r.iface)];
      Assoc(PortList(r.localPorts), PortList(r.remotePorts) + (DomainList(r.domains) + e), rest);
      Assoc(PortList(r.remotePorts), DomainList(r.domains) + e, rest);
      Assoc(DomainList(r.domains), e, rest);
      assert e + rest == t4;
    }
    PortsRoundTrip(r.localPorts, t6);
    PortsRoundTrip(r.remotePorts, t5);
    DomainsRoundTrip(r.domains, t4);
    PopStr(r.dns.primaryDns, t3);
    PopStr(r.dns.standbyDns, t2);
    PopI32(r.userId, t1);
    PopStr(r.iface, rest);
  }

  lemma {:induction false} FullBodyRoundTrip(r: FullRule, rest: seq<Token>)
    ensures DecodeFullBody(HeadOf(r), EncodeFullBody(r) + rest) == Read(true, NormFull(r), rest)
  {
    var t1 := EncodeFullTail(r) + rest;
    var t2 := [I32(r.protocol)] + t1;
    var t3 := IpList(r.remoteIps) + t2;
    assert EncodeFullBody(r) + rest == IpList(r.localIps) + t3 by {
      var e2 := [I32(r.protocol)] + EncodeFullTail(r);
      Assoc(IpList(r.localIps), IpList(r.remoteIps) + e2, rest);
      Assoc(IpList(r.remoteIps), e2, rest);
      Assoc([I32(r.protocol)], EncodeFullTail(r), rest);
    }
    IpsRoundTrip(r.localIps, t3);
    IpsRoundTrip(r.remoteIps, t2);
    PopI32(r.protocol, t1);
    FullTailRoundTrip(r, HeadOf(r).(localIps := NormIps(r.localIps), remoteIps := NormIps(r.remoteIps), protocol := r.protocol), rest);
  }

  lemma {:induction false} FullHeadRoundTrip(r: FullRule, t0: seq<Token>)
    ensures DecodeFullHead(EncodeFullHead(r) + t0) == Read(true, HeadOf(r), t0)
  {
    var t1 := [I32(r.appUid)] + t0;
    var t2 := [Flag(r.isEnabled)] + t1;
    var t3 := [I32(r.ruleType)] + t2;
    var t4 := [I32(r.action)] + t3;
    var t5 := [I32(r.direction)] + t4;
    var t6 := [Str(r.ruleDescription)] + t5;
    var t7 := [Str(r.ruleName)] + t6;
    assert EncodeFullHead(r) + t0 == [I32(r.ruleId)] + t7;
    PopI32(r.ruleId, t7);
    PopStr(r.ruleName, t6);
    PopStr(r.ruleDescription, t5);
    PopI32(r.direction, t4);
    PopI32(r.action, t3);
    PopI32(r.ruleType, t2);
    PopFlag(r.isEnabled, t1);
    PopI32(r.appUid, t0);
  }

  /** Whatever follows in the parcel, the rule comes back in normal form and its tokens are
      consumed exactly. */
  lemma {:induction false} FullRuleRoundTrip(r: FullRule, rest: seq<Token>)
    ensures DecodeFull(EncodeFull(r) + rest) == Read(true, NormFull(r), rest)
  {
    Assoc(EncodeFullHead(r), EncodeFullBody(r), rest);
    FullHeadRoundTrip(r, EncodeFullBody(r) + rest);
    FullBodyRoundTrip(r, rest);
  }

  // ---------------------------------------------------------------------------------------
  // Normal forms

  /** What comes back of an address parameter: family 1 is IPv4, and only type 2 has an end. */
  lemma {:induction false} WhatIpsKeep(p: IpParam)
    ensures var n := NormIp(p);
            && n.family == p.family && n.kind == p.kind && n.mask == p.mask
            && (p.family == 1 ==> n.start4 == p.start4 && n.start6 == n.end6 == Zeros(16))
            && (p.family != 1 ==> n.start6 == p.start6 && n.start4 == n.end4 == 0)
            && (p.family == 1 ==> n.end4 == if p.kind == 2 then p.end4 else 0)
            && (p.family != 1 ==> n.end6 == if p.kind == 2 then p.end6 else Zeros(16))
  {
  }

  /** And of lists: their first 100 items. */
  lemma {:induction false} WhatListsKeep<T>(xs: seq<T>)
    ensures |Cut(xs)| == (if |xs| <= 100 then |xs| else 100) && Cut(xs) <= xs
  {
  }

  lemma {:induction false} NormIpIdempotent(p: IpParam)
    ensures NormIp(NormIp(p)) == NormIp(p)
  {
  }

  lemma {:induction false} NormIpsIdempotent(xs: seq<IpParam>)
    ensures NormIps(NormIps(xs)) == NormIps(xs)
  {
    var ys := NormIps(xs);
    assert Cut(ys) == ys;
    forall i | 0 <= i < |ys| ensures NormIp(ys[i]) == ys[i] {
      NormIpIdempotent(Cut(xs)[i]);
    }
  }

  lemma {:induction false} NormalisationIsIdempotent(r: Rule, f: FullRule)
    ensures NormRule(NormRule(r)) == NormRule(r)
    ensures NormFull(NormFull(f)) == NormFull(f)
  {
    NormIpsIdempotent(f.localIps);
    NormIpsIdempotent(f.remoteIps);
    if r.IpRule? {
      NormIpsIdempotent(r.localIps);
      NormIpsIdempotent(r.remoteIps);
    }
  }

  lemma {:induction false} DecodedIpsAreNormal(ts: seq<Token>)
    ensures NormIps(ReadIps(ts).value) == ReadIps(ts).value
  {
    var n := ReadU32(ts, 0);
    if n.ok {
      DecodedItemsAreNormal(DecodeIp, NormIp, Min(n.value, FIREWALL_MAX_LIST_SIZE), n.rest);
    }
  }

  /** Any parcel at all: what the reader accepts is in normal form, with no list over 100 items,
      so sending it again changes nothing. */
  lemma {:induction false} AcceptedFullRuleIsStable(ts: seq<Token>, rest: seq<Token>)
    requires DecodeFull(ts).ok
    ensures var r := DecodeFull(ts).value;
            NormFull(r) == r && DecodeFull(EncodeFull(r) + rest) == Read(true, r, rest)
  {
    var r := DecodeFull(ts).value;
    FullValueIsNormal(ts);
    FullRuleRoundTrip(r, rest);
  }

  lemma {:induction false} FullValueIsNormal(ts: seq<Token>)
    requires DecodeFull(ts).ok
    ensures NormFull(DecodeFull(ts).value) == DecodeFull(ts).value
  {
    var head := DecodeFullHead(ts);
    FullBodyIsNormal(head.value, head.rest);
  }

  lemma {:induction false} FullBodyIsNormal(head: FullRule, ts: seq<Token>)
    ensures NormFull(DecodeFullBody(head, ts).value) == DecodeFullBody(head, ts).value
  {
    var localIps := ReadIps(ts);
    var remoteIps := ReadIps(localIps.rest);
    var protocol := ReadI32(remoteIps.rest, 0);
    DecodedIpsAreNormal(ts);
    DecodedIpsAreNormal(localIps.rest);
    var r := head.(localIps := localIps.value, remoteIps := remoteIps.value, protocol := protocol.value);
    FullTailIsNormal(r, protocol.rest);
  }

  lemma {:induction false} CutIsWhole<T>(xs: seq<T>)
    requires |xs| <= FIREWALL_MAX_LIST_SIZE
    ensures Cut(xs) == xs
  {
  }

  lemma {:induction false} FullTailIsNormal(head: FullRule, ts: seq<Token>)
    requires NormIps(head.localIps) == head.localIps && NormIps(head.remoteIps) == head.remoteIps
    ensures NormFull(DecodeFullTail(head, ts).value) == DecodeFullTail(head, ts).value
  {
    var r := DecodeFullTail(head, ts).value;
    var localPorts := ReadPorts(ts);
    var remotePorts := ReadPorts(localPorts.rest);
    var domains := ReadDomains(remotePorts.rest);
    assert r.localPorts == localPorts.value && r.remotePorts == remotePorts.value && r.domains == domains.value;
    CutIsWhole(localPorts.value);
    CutIsWhole(remotePorts.value);
    CutIsWhole(domains.value);
  }
}
