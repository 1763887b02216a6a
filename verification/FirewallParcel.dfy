/** The rules' Marshalling and Unmarshalling on a parcel, field by field and list by list. A reader
    that fails returns no rule; `ok` is false then. */
module FirewallParcel {
  import opened Parcels
  import opened FirewallCodec

  predicate Short<T>(xs: seq<T>) {
    |xs| < 0x1_0000_0000
  }

  lemma {:induction false} AssocFive(u: seq<Token>, a: seq<Token>, b: seq<Token>, c: seq<Token>, d: seq<Token>, e: seq<Token>)
    ensures ((((u + a) + b) + c) + d) + e == u + (a + (b + (c + (d + e))))
  {
    Assoc(((u + a) + b) + c, d, e);
    Assoc((u + a) + b, c, d + e);
    Assoc(u + a, b, c + (d + e));
    Assoc(u, a, b + (c + (d + e)));
  }

  // ---------------------------------------------------------------------------------------
  // The rules SetFirewallRules sends

  method WriteBase(parcel: Parcel, r: Rule)
    modifies parcel
    ensures parcel.unread == old(parcel.unread) + [I32(r.userId), I32(r.appUid)]
  {
    parcel.Write(I32(r.userId));
    parcel.Write(I32(r.appUid));
  }

  method WriteIpRule(parcel: Parcel, r: Rule)
    requires r.IpRule? && Short(r.localIps) && Short(r.remoteIps) && Short(r.localPorts) && Short(r.remotePorts)
    modifies parcel
    ensures parcel.unread == old(parcel.unread) + EncodeRule(r)
  {
    WriteBase(parcel, r);
    parcel.Write(I32(r.direction));
    parcel.Write(I32(r.action));
    parcel.Write(I32(r.protocol));
    ghost var head := parcel.unread;
    assert head == old(parcel.unread) + EncodeIpHead(r);
    MarshallingList(EncodeIp, r.localIps, parcel);
    MarshallingList(EncodeIp, r.remoteIps, parcel);
    MarshallingList(EncodePort, r.localPorts, parcel);
    MarshallingList(EncodePort, r.remotePorts, parcel);
    parcel.Write(Str(r.iface));
    AssocFive(head, IpList(r.localIps), IpList(r.remoteIps), PortList(r.localPorts), PortList(r.remotePorts), [Str(r.iface)]);
    Assoc(old(parcel.unread), EncodeIpHead(r), EncodeIpBody(r));
  }

  method WriteDomainRule(parcel: Parcel, r: Rule)
    requires r.DomainRule? && Short(r.domains)
    modifies parcel
    ensures parcel.unread == old(parcel.unread) + EncodeRule(r)
  {
    WriteBase(parcel, r);
    parcel.Write(I32(r.action));
    assert parcel.unread == old(parcel.unread) + [I32(r.userId), I32(r.appUid), I32(r.action)];
    MarshallingList(EncodeDomain, r.domains, parcel);
    Assoc(old(parcel.unread), [I32(r.userId), I32(r.appUid), I32(r.action)], DomainList(r.domains));
  }

  method WriteDnsRule(parcel: Parcel, r: Rule)
    requires r.DnsRule?
    modifies parcel
    ensures parcel.unread == old(parcel.unread) + EncodeRule(r)
  {
    WriteBase(parcel, r);
    parcel.Write(Str(r.primaryDns));
    parcel.Write(Str(r.standbyDns));
  }

  method ReadIpHead(parcel: Parcel) returns (ok: bool, r: Rule)
    modifies parcel
    ensures Read(ok, r, parcel.unread) == DecodeIpHead(old(parcel.unread))
  {
    var _, userId := parcel.TakeI32(0);
    var _, appUid := parcel.TakeI32(0);
    var direction, action;
    ok, direction := parcel.TakeI32(0);
    r := IpRule(userId, appUid, direction, 0, 0, [], [], [], [], "");
    if !ok {
      return;
    }
    ok, action := parcel.TakeI32(0);
    if !ok {
      return;
    }
    var _, protocol := parcel.TakeI32(0);
    r := r.(action := action, protocol := protocol);
  }

  method ReadIpRule(parcel: Parcel) returns (ok: bool, r: Rule)
    modifies parcel
    ensures Read(ok, r, parcel.unread) == DecodeIpRule(old(parcel.unread))
  {
    ok, r := ReadIpHead(parcel);
    if !ok {
      return;
    }
    var _, localIps := UnmarshallingList(DecodeIp, parcel);
    var _, remoteIps := UnmarshallingList(DecodeIp, parcel);
    var _, localPorts := UnmarshallingList(DecodePort, parcel);
    var _, remotePorts := UnmarshallingList(DecodePort, parcel);
    var _, iface := parcel.TakeStr("");
    r := r.(localIps := localIps, remoteIps := remoteIps, localPorts := localPorts, remotePorts := remotePorts, iface := iface);
  }

  method ReadDomainRule(parcel: Parcel) returns (ok: bool, r: Rule)
    modifies parcel
    ensures Read(ok, r, parcel.unread) == DecodeDomainRule(old(parcel.unread))
  {
    var _, userId := parcel.TakeI32(0);
    var _, appUid := parcel.TakeI32(0);
    var action;
    ok, action := parcel.TakeI32(0);
    r := DomainRule(userId, appUid, 0, []);
    if !ok {
      return;
    }
    var _, domains := UnmarshallingList(DecodeDomain, parcel);
    r := DomainRule(userId, appUid, action, domains);
  }

  method ReadDnsRule(parcel: Parcel) returns (ok: bool, r: Rule)
    modifies parcel
    ensures Read(ok, r, parcel.unread) == DecodeDnsRule(old(parcel.unread))
  {
    var _, userId := parcel.TakeI32(0);
    var _, appUid := parcel.TakeI32(0);
    var primary;
    ok, primary := parcel.TakeStr("");
    r := DnsRule(userId, appUid, "", "");
    if !ok {
      return;
    }
    var _, standby := parcel.TakeStr("");
    r := DnsRule(userId, appUid, primary, standby);
  }

  // ---------------------------------------------------------------------------------------
  // The external rule

  method WriteFullHead(parcel: Parcel, r: FullRule)
    modifies parcel
    ensures parcel.unread == old(parcel.unread) + EncodeFullHead(r)
  {
    parcel.Write(I32(r.ruleId));
    parcel.Write(Str(r.ruleName));
    parcel.Write(Str(r.ruleDescription));
    parcel.Write(I32(r.direction));
    parcel.Write(I32(r.action));
    parcel.Write(I32(r.ruleType));
    parcel.Write(Flag(r.isEnabled));
    parcel.Write(I32(r.appUid));
  }

  method WriteFullTail(parcel: Parcel, r: FullRule)
    requires Short(r.localPorts) && Short(r.remotePorts) && Short(r.domains)
    modifies parcel
    ensures parcel.unread == old(parcel.unread) + EncodeFullTail(r)
  {
    ghost var u := parcel.unread;
    MarshallingList(EncodePort, r.localPorts, parcel);
    MarshallingList(EncodePort, r.remotePorts, parcel);
    MarshallingList(EncodeDomain, r.domains, parcel);
    ghost var lists := parcel.unread;
    parcel.Write(Str(r.dns.primaryDns));
    parcel.Write(Str(r.dns.standbyDns));
    parcel.Write(I32(r.userId));
    parcel.Write(Str(r.iface));
    ghost var end := [Str(r.dns.primaryDns), Str(r.dns.standbyDns), I32(r.userId), Str(r.iface)];
    assert parcel.unread == lists + end;
    Assoc((u + PortList(r.localPorts)) + PortList(r.remotePorts), DomainList(r.domains), end);
    Assoc(u + PortList(r.localPorts), PortList(r.remotePorts), DomainList(r.domains) + end);
    Assoc(u, PortList(r.localPorts), PortList(r.remotePorts) + (DomainList(r.domains) + end));
  }

  method WriteFullRule(parcel: Parcel, r: FullRule)
    requires Short(r.localIps) && Short(r.remoteIps) && Short(r.localPorts) && Short(r.remotePorts) && Short(r.domains)
    modifies parcel
    ensures parcel.unread == old(parcel.unread) + EncodeFull(r)
  {
    ghost var u := parcel.unread;
    WriteFullHead(parcel, r);
    MarshallingList(EncodeIp, r.localIps, parcel);
    MarshallingList(EncodeIp, r.remoteIps, parcel);
    parcel.Write(I32(r.protocol));
    WriteFullTail(parcel, r);
    AssocFive(u, EncodeFullHead(r), IpList(r.localIps), IpList(r.remoteIps), [I32(r.protocol)], EncodeFullTail(r));
  }

  method ReadFullHead(parcel: Parcel) returns (ok: bool, r: FullRule)
    modifies parcel
    ensures Read(ok, r, parcel.unread) == DecodeFullHead(old(parcel.unread))
  {
    var name, direction, action, ruleType;
    r := Blank();
    var _, ruleId := parcel.TakeI32(0);
    ok, name := parcel.TakeStr("");
    if !ok {
      return;
    }
    var _, description := parcel.TakeStr("");
    ok, direction := parcel.TakeI32(0);
    if !ok {
      return;
    }
    ok, action := parcel.TakeI32(0);
    if !ok {
      return;
    }
    ok, ruleType := parcel.TakeI32(0);
    if !ok {
      return;
    }
    var _, isEnabled := parcel.TakeFlag(false);
    var _, appUid := parcel.TakeI32(0);
    r := r.(ruleId := ruleId, ruleName := name, ruleDescription := description, direction := direction, action := action,
            ruleType := ruleType, isEnabled := isEnabled, appUid := appUid);
  }

  method ReadFullTail(parcel: Parcel, head: FullRule) returns (ok: bool, r: FullRule)
    modifies parcel
    ensures Read(ok, r, parcel.unread) == DecodeFullTail(head, old(parcel.unread))
  {
    var _, localPorts := UnmarshallingList(DecodePort, parcel);
    var _, remotePorts := UnmarshallingList(DecodePort, parcel);
    var _, domains := UnmarshallingList(DecodeDomain, parcel);
    var dns := DecodeDns(parcel.unread);
    parcel.unread := dns.rest;
    var userId;
    ok, userId := parcel.TakeI32(0);
    r := head.(localPorts := localPorts, remotePorts := remotePorts, domains := domains,
               dns := if dns.ok then dns.value else DnsParam("", ""), userId := userId);
    if !ok {
      return;
    }
    var _, iface := parcel.TakeStr("");
    r := r.(iface := iface);
  }

  method ReadFullRule(parcel: Parcel) returns (ok: bool, r: FullRule)
    modifies parcel
    ensures Read(ok, r, parcel.unread) == DecodeFull(old(parcel.unread))
  {
    ok, r := ReadFullHead(parcel);
    if !ok {
      return;
    }
    var _, localIps := UnmarshallingList(DecodeIp, parcel);
    var _, remoteIps := UnmarshallingList(DecodeIp, parcel);
    var _, protocol := parcel.TakeI32(0);
    ok, r := ReadFullTail(parcel, r.(localIps := localIps, remoteIps := remoteIps, protocol := protocol));
  }
}
