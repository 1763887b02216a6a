/** What the readers of the diagnostic records accept, for every parcel, and what they leave in the
    receiver when they fail. */
module DiagReads {
  import opened Parcels
  import opened DiagCodec

  /** A count and some items, as the writers put them, but with any count. */
  function Counted<T>(enc: T -> seq<Token>, count: nat, items: seq<T>): seq<Token> {
    [U32(count)] + EncodeAll(enc, items)
  }

  /** An accepted list is a count and as many items as it announces, or as the limit allows. */
  lemma {:induction false} ListIsCounted<T>(enc: T -> seq<Token>, dec: seq<Token> -> Read<T>, limit: nat, ts: seq<Token>)
    returns (count: nat)
    requires Canonical(enc, dec) && DecodeList(dec, limit, ts).ok
    ensures var r := DecodeList(dec, limit, ts);
            ts == Counted(enc, count, r.value) + r.rest && |r.value| == if count <= limit then count else limit
  {
    count := ts[0].u32;
    var n := if count <= limit then count else limit;
    var r := DecodeItems(dec, n, ts[1..]);
    ItemsAreCanonical(enc, dec, n, ts[1..]);
    Assoc([U32(count)], EncodeAll(enc, r.value), r.rest);
    assert ts == [U32(count)] + ts[1..];
  }

  // ---------------------------------------------------------------------------------------
  // Records

  lemma {:induction false} UnixIsCanonical()
    ensures Canonical(EncodeUnix, DecodeUnix)
  {
    forall ts | DecodeUnix(ts).ok ensures ts == EncodeUnix(DecodeUnix(ts).value) + DecodeUnix(ts).rest {
      UnixFields(ReadFields(UNIX_FIELDS, ts).value);
    }
  }

  lemma {:induction false} UnixFields(v: seq<Token>)
    requires Fits(v, UNIX_FIELDS)
    ensures v == EncodeUnix(UnixOf(Read(true, v, [])).value)
  {
    assert UNIX_FIELDS[0] == ShortField && UNIX_FIELDS[1] == WordField;
    assert UNIX_FIELDS[2] == UNIX_FIELDS[3] == UNIX_FIELDS[4] == UNIX_FIELDS[5] == UNIX_FIELDS[6] == TextField;
  }

  lemma {:induction false} NetProtoIsCanonical()
    ensures Canonical(EncodeNetProto, DecodeNetProto)
  {
    forall ts | DecodeNetProto(ts).ok ensures ts == EncodeNetProto(DecodeNetProto(ts).value) + DecodeNetProto(ts).rest {
      NetProtoFields(ReadFields(NET_PROTO_FIELDS, ts).value);
    }
  }

  lemma {:induction false} NetProtoFields(v: seq<Token>)
    requires Fits(v, NET_PROTO_FIELDS)
    ensures v == EncodeNetProto(NetProtoOf(Read(true, v, [])).value)
  {
    assert NET_PROTO_FIELDS[0] == NET_PROTO_FIELDS[1] == NET_PROTO_FIELDS[2] == TextField;
    assert NET_PROTO_FIELDS[3] == NET_PROTO_FIELDS[4] == NET_PROTO_FIELDS[5] == TextField;
    assert NET_PROTO_FIELDS[6] == NET_PROTO_FIELDS[7] == ShortField && NET_PROTO_FIELDS[8] == WordField;
  }

  lemma {:induction false} IcmpIsCanonical()
    ensures Canonical(EncodeIcmp, DecodeIcmp)
  {
    forall ts | DecodeIcmp(ts).ok ensures ts == EncodeIcmp(DecodeIcmp(ts).value) + DecodeIcmp(ts).rest {
      IcmpFields(ReadFields(ICMP_FIELDS, ts).value);
    }
  }

  lemma {:induction false} IcmpFields(v: seq<Token>)
    requires Fits(v, ICMP_FIELDS)
    ensures v == EncodeIcmp(IcmpOf(Read(true, v, [])).value)
  {
    assert ICMP_FIELDS[0] == ICMP_FIELDS[1] == ICMP_FIELDS[2] == ShortField;
    assert ICMP_FIELDS[3] == WordField && ICMP_FIELDS[4] == TextField;
  }

  lemma {:induction false} AddrIsCanonical()
    ensures Canonical(EncodeAddr, DecodeAddr)
  {
    forall ts | DecodeAddr(ts).ok ensures ts == EncodeAddr(DecodeAddr(ts).value) + DecodeAddr(ts).rest {
      var v := ReadFields(ADDR_FIELDS, ts).value;
      assert ADDR_FIELDS[0] == ADDR_FIELDS[1] == TextField;
      assert v == EncodeAddr(DecodeAddr(ts).value);
    }
  }

  // ---------------------------------------------------------------------------------------
  // Sockets

  /** Accepted socket lists are written lists, with any counts. */
  lemma {:induction false} AcceptedSockets(ts: seq<Token>) returns (c: nat, d: nat)
    requires DecodeSockets(ts).ok
    ensures var r := DecodeSockets(ts);
            && ts == Counted(EncodeUnix, c, r.value.unixSockets) + (Counted(EncodeNetProto, d, r.value.netProtoSockets) + r.rest)
            && |r.value.unixSockets| == (if c <= 1024 then c else 1024)
            && |r.value.netProtoSockets| == if d <= 1024 then d else 1024
  {
    UnixIsCanonical();
    c := ListIsCounted(EncodeUnix, DecodeUnix, SOCKET_INFO_LIST_MAX_SIZE, ts);
    NetProtoIsCanonical();
    d := ListIsCounted(EncodeNetProto, DecodeNetProto, SOCKET_INFO_LIST_MAX_SIZE,
                       DecodeList(DecodeUnix, SOCKET_INFO_LIST_MAX_SIZE, ts).rest);
  }

  // ---------------------------------------------------------------------------------------
  // Ping results

  lemma {:induction false} PingFields(prev: Ping, v: seq<Token>)
    requires Fits(v, PING_FIELDS)
    ensures v == PingHead(FillPing(prev, v))
  {
    assert PING_FIELDS[0] == PING_FIELDS[1] == TextField;
    assert PING_FIELDS[2] == PING_FIELDS[3] == PING_FIELDS[4] == PING_FIELDS[5] == ShortField;
  }

  /** An accepted ping result is a written one, with any count; its items follow those already there. */
  lemma {:induction false} AcceptedPing(prev: Ping, ts: seq<Token>) returns (c: nat, items: seq<IcmpResponse>)
    requires DecodePing(prev, ts).ok
    ensures var r := DecodePing(prev, ts);
            && ts == PingHead(r.value) + (Counted(EncodeIcmp, c, items) + r.rest)
            && r.value.responses == prev.responses + items && |items| == if c <= 1024 then c else 1024
  {
    var f := ReadFields(PING_FIELDS, ts);
    PingFields(prev, f.value);
    IcmpIsCanonical();
    items := DecodeList(DecodeIcmp, ICMP_SEQ_LIST_MAX_SIZE, f.rest).value;
    c := ListIsCounted(EncodeIcmp, DecodeIcmp, ICMP_SEQ_LIST_MAX_SIZE, f.rest);
  }

  /** A ping result that breaks off among its fields keeps what the receiver held from there on. */
  lemma {:induction false} PingBreaksOff(p: Ping, prev: Ping, n: nat)
    requires n < 6
    ensures DecodePing(prev, PingHead(p)[..n]) == Read(false, prev.(
      host := if n > 0 then p.host else prev.host, ipAddr := if n > 1 then p.ipAddr else prev.ipAddr,
      dateSize := if n > 2 then p.dateSize else prev.dateSize, payloadSize := if n > 3 then p.payloadSize else prev.payloadSize,
      transCount := if n > 4 then p.transCount else prev.transCount), [])
  {
    var v := PingHead(p)[..n];
    TakenFields(PING_FIELDS, v, []);
    assert v + [] == v;
    assert forall i :: 0 <= i < n ==> v[i] == PingHead(p)[i];
  }

  // ---------------------------------------------------------------------------------------
  // Interface configurations

  lemma {:induction false} IfaceFields(prev: Iface, v: seq<Token>)
    requires Fits(v, IFACE_FIELDS)
    ensures v == IfaceHead(FillIface(prev, v))
  {
    assert IFACE_FIELDS[0] == IFACE_FIELDS[1] == IFACE_FIELDS[2] == TextField;
    assert IFACE_FIELDS[3] == IFACE_FIELDS[4] == IFACE_FIELDS[5] == TextField;
  }

  lemma {:induction false} CounterFields(prev: Iface, v: seq<Token>)
    requires Fits(v, IFACE_COUNTERS)
    ensures v == IfaceCounters(FillCounters(prev, v))
  {
    assert IFACE_COUNTERS[0] == IFACE_COUNTERS[1] == IFACE_COUNTERS[2] == IFACE_COUNTERS[3] == WordField;
    assert IFACE_COUNTERS[4] == FlagField;
  }

  /** An accepted interface configuration is a written one, with any count; its addresses follow those
      already there. */
  lemma {:induction false} AcceptedIface(prev: Iface, ts: seq<Token>) returns (c: nat, items: seq<(string, string)>)
    requires DecodeIface(prev, ts).ok
    ensures var r := DecodeIface(prev, ts);
            && ts == IfaceHead(r.value) + (Counted(EncodeAddr, c, items) + (IfaceCounters(r.value) + r.rest))
            && r.value.ipv6Addrs == prev.ipv6Addrs + items && |items| == if c <= 64 then c else 64
  {
    var f := ReadFields(IFACE_FIELDS, ts);
    IfaceFields(prev, f.value);
    AddrIsCanonical();
    var l := DecodeList(DecodeAddr, IFCONFIG_MAX_IPV6_ADDR_NUM, f.rest);
    items := l.value;
    c := ListIsCounted(EncodeAddr, DecodeAddr, IFCONFIG_MAX_IPV6_ADDR_NUM, f.rest);
    var t := ReadFields(IFACE_COUNTERS, l.rest);
    var d := FillIface(prev, f.value).(ipv6Addrs := prev.ipv6Addrs + items);
    CounterFields(d, t.value);
  }

  /** One that breaks off among its strings keeps what the receiver held from there on. */
  lemma {:induction false} IfaceBreaksOff(c: Iface, prev: Iface, n: nat)
    requires n < 6
    ensures DecodeIface(prev, IfaceHead(c)[..n]) == Read(false, FirstStrings(c, prev, n), [])
  {
    var v := IfaceHead(c)[..n];
    StringsFit(c);
    TakenFields(IFACE_FIELDS, v, []);
    assert v + [] == v;
    StringsAreFilled(c, prev, n);
  }

  /** The receiver with the first `n` strings of `c`. */
  function FirstStrings(c: Iface, prev: Iface, n: nat): Iface {
    prev.(ifaceName := if n > 0 then c.ifaceName else prev.ifaceName, linkEncap := if n > 1 then c.linkEncap else prev.linkEncap,
          macAddr := if n > 2 then c.macAddr else prev.macAddr, ipv4Addr := if n > 3 then c.ipv4Addr else prev.ipv4Addr,
          ipv4Bcast := if n > 4 then c.ipv4Bcast else prev.ipv4Bcast)
  }

  lemma {:induction false} StringsFit(c: Iface)
    ensures Fits(IfaceHead(c), IFACE_FIELDS)
  {
  }

  lemma {:induction false} StringsAreFilled(c: Iface, prev: Iface, n: nat)
    requires n < 6
    ensures FillIface(prev, IfaceHead(c)[..n]) == FirstStrings(c, prev, n)
  {
    var v := IfaceHead(c)[..n];
    assert forall i :: 0 <= i < n ==> v[i] == IfaceHead(c)[i];
    assert TextAt(v, 0, prev.ifaceName) == if n > 0 then c.ifaceName else prev.ifaceName;
    assert TextAt(v, 1, prev.linkEncap) == if n > 1 then c.linkEncap else prev.linkEncap;
    assert TextAt(v, 2, prev.macAddr) == if n > 2 then c.macAddr else prev.macAddr;
    assert TextAt(v, 3, prev.ipv4Addr) == if n > 3 then c.ipv4Addr else prev.ipv4Addr;
    assert TextAt(v, 4, prev.ipv4Bcast) == if n > 4 then c.ipv4Bcast else prev.ipv4Bcast;
  }
}
