/** The diagnostic records: lists written by a loop that checks its limit after each item, and read
    back onto the end of the receiver's list. */
module DiagCodec {
  import opened Parcels

  const SOCKET_INFO_LIST_MAX_SIZE: nat := 1024
  const ICMP_SEQ_LIST_MAX_SIZE: nat := 1024
  const IFCONFIG_MAX_IPV6_ADDR_NUM: nat := 64

  /** Writes an item, then stops once `limit` items are out. */
  method WriteClamped<T>(parcel: Parcel, enc: T -> seq<Token>, limit: nat, xs: seq<T>)
    requires 0 < limit && |xs| < 0x1_0000_0000
    modifies parcel
    ensures parcel.unread == old(parcel.unread) + EncodeList(enc, limit, xs)
  {
    parcel.Write(U32(Min(limit, |xs|)));
    ghost var head := parcel.unread;
    var count := 0;
    while count < |xs|
      invariant 0 <= count <= |xs| && (count < limit || count == 0)
      invariant parcel.unread == head + EncodeAll(enc, xs[..count])
    {
      assert xs[..count + 1][..count] == xs[..count];
      Assoc(head, EncodeAll(enc, xs[..count]), enc(xs[count]));
      parcel.Append(enc(xs[count]));
      count := count + 1;
      if count >= limit {
        break;
      }
    }
    Assoc(old(parcel.unread), [U32(Min(limit, |xs|))], EncodeAll(enc, xs[..count]));
  }

  /** Reads a counted list onto the end of `list`. */
  method ReadClamped<T>(parcel: Parcel, dec: seq<Token> -> Read<T>, limit: nat, list: seq<T>)
    returns (ok: bool, all: seq<T>)
    modifies parcel
    ensures var r := DecodeList(dec, limit, old(parcel.unread));
            ok == r.ok && all == list + r.value && parcel.unread == r.rest
  {
    all := list;
    var size := ReadU32(parcel.unread, 0);
    if !size.ok {
      return false, all;
    }
    parcel.unread := size.rest;
    var n := if size.value > limit then limit else size.value;
    for i := 0 to n
      invariant DecodeItems(dec, i, size.rest).ok
      invariant all == list + DecodeItems(dec, i, size.rest).value
      invariant parcel.unread == DecodeItems(dec, i, size.rest).rest
    {
      var x := dec(parcel.unread);
      parcel.unread := x.rest;
      if !x.ok {
        FailureSticks(dec, i + 1, n, size.rest);
        return false, all;
      }
      all := all + [x.value];
    }
    ok := true;
  }

  function Clamped<T>(limit: nat, xs: seq<T>): seq<T> {
    xs[..Min(|xs|, limit)]
  }

  /** A list of exactly readable items comes back cut to its limit, with exact framing. */
  lemma {:induction false} ClampedRoundTrip<T(!new)>(enc: T -> seq<Token>, dec: seq<Token> -> Read<T>, limit: nat,
                                                     xs: seq<T>, rest: seq<Token>)
    requires RoundTrips(enc, dec, Identity<T>)
    ensures DecodeList(dec, limit, EncodeList(enc, limit, xs) + rest) == Read(true, Clamped(limit, xs), rest)
  {
    ListRoundTrip(enc, dec, Identity<T>, limit, xs, rest);
    IdentityMap(Clamped(limit, xs));
  }

  // ---------------------------------------------------------------------------------------
  // Sockets

  datatype UnixSocket = UnixSocket(refCnt: nat, inode: nat, protocol: string, flags: string, socketType: string,
                                   state: string, path: string)

  datatype NetProtoSocket = NetProtoSocket(protocol: string, localAddr: string, foreignAddr: string, state: string,
                                           user: string, programName: string, recvQueue: nat, sendQueue: nat, inode: nat)

  const UNIX_FIELDS := [ShortField, WordField, TextField, TextField, TextField, TextField, TextField]
  const NET_PROTO_FIELDS := [TextField, TextField, TextField, TextField, TextField, TextField, ShortField, ShortField, WordField]

  function EncodeUnix(s: UnixSocket): seq<Token> {
    [U16(s.refCnt), U32(s.inode), Str(s.protocol), Str(s.flags), Str(s.socketType), Str(s.state), Str(s.path)]
  }

  function UnixOf(r: Read<seq<Token>>): Read<UnixSocket> {
    var v := r.value;
    if !r.ok then Read(false, UnixSocket(0, 0, "", "", "", "", ""), r.rest)
    else Read(true, UnixSocket(ShortAt(v, 0, 0), WordAt(v, 1, 0), TextAt(v, 2, ""), TextAt(v, 3, ""),
                               TextAt(v, 4, ""), TextAt(v, 5, ""), TextAt(v, 6, "")), r.rest)
  }

  function DecodeUnix(ts: seq<Token>): Read<UnixSocket> {
    UnixOf(ReadFields(UNIX_FIELDS, ts))
  }

  lemma {:induction false} UnixFits(s: UnixSocket)
    ensures Fits(EncodeUnix(s), UNIX_FIELDS)
  {
  }

  lemma {:induction false} UnixIsBack(s: UnixSocket, rest: seq<Token>)
    ensures UnixOf(Read(true, EncodeUnix(s), rest)) == Read(true, s, rest)
  {
  }

  lemma {:induction false} UnixRoundTrips()
    ensures RoundTrips(EncodeUnix, DecodeUnix, Identity<UnixSocket>)
  {
    forall s, rest ensures DecodeUnix(EncodeUnix(s) + rest) == Read(true, s, rest) {
      UnixFits(s);
      PopFields(EncodeUnix(s), UNIX_FIELDS, rest);
      UnixIsBack(s, rest);
    }
  }

  function EncodeNetProto(s: NetProtoSocket): seq<Token> {
    [Str(s.protocol), Str(s.localAddr), Str(s.foreignAddr), Str(s.state), Str(s.user), Str(s.programName),
     U16(s.recvQueue), U16(s.sendQueue), U32(s.inode)]
  }

  function NetProtoOf(r: Read<seq<Token>>): Read<NetProtoSocket> {
    var v := r.value;
    if !r.ok then Read(false, NetProtoSocket("", "", "", "", "", "", 0, 0, 0), r.rest)
    else Read(true, NetProtoSocket(TextAt(v, 0, ""), TextAt(v, 1, ""), TextAt(v, 2, ""), TextAt(v, 3, ""),
                                   TextAt(v, 4, ""), TextAt(v, 5, ""), ShortAt(v, 6, 0), ShortAt(v, 7, 0),
                                   WordAt(v, 8, 0)), r.rest)
  }

  function DecodeNetProto(ts: seq<Token>): Read<NetProtoSocket> {
    NetProtoOf(ReadFields(NET_PROTO_FIELDS, ts))
  }

  lemma {:induction false} NetProtoFits(s: NetProtoSocket)
    ensures Fits(EncodeNetProto(s), NET_PROTO_FIELDS)
  {
  }

  lemma {:induction false} NetProtoIsBack(s: NetProtoSocket, rest: seq<Token>)
    ensures NetProtoOf(Read(true, EncodeNetProto(s), rest)) == Read(true, s, rest)
  {
  }

  lemma {:induction false} NetProtoRoundTrips()
    ensures RoundTrips(EncodeNetProto, DecodeNetProto, Identity<NetProtoSocket>)
  {
    forall s, rest ensures DecodeNetProto(EncodeNetProto(s) + rest) == Read(true, s, rest) {
      NetProtoFits(s);
      PopFields(EncodeNetProto(s), NET_PROTO_FIELDS, rest);
      NetProtoIsBack(s, rest);
    }
  }

  datatype Sockets = Sockets(unixSockets: seq<UnixSocket>, netProtoSockets: seq<NetProtoSocket>)

  function EncodeSockets(s: Sockets): seq<Token> {
    EncodeList(EncodeUnix, SOCKET_INFO_LIST_MAX_SIZE, s.unixSockets)
    + EncodeList(EncodeNetProto, SOCKET_INFO_LIST_MAX_SIZE, s.netProtoSockets)
  }

  function DecodeSockets(ts: seq<Token>): Read<Sockets> {
    var u := DecodeList(DecodeUnix, SOCKET_INFO_LIST_MAX_SIZE, ts);
    if !u.ok then Read(false, Sockets(u.value, []), u.rest)
    else
      var n := DecodeList(DecodeNetProto, SOCKET_INFO_LIST_MAX_SIZE, u.rest);
      Read(n.ok, Sockets(u.value, n.value), n.rest)
  }

  class NetDiagSocketsInfo {
    var unixSockets: seq<UnixSocket>
    var netProtoSockets: seq<NetProtoSocket>

    function View(): Sockets
      reads this
    {
      Sockets(unixSockets, netProtoSockets)
    }

    method Marshalling(parcel: Parcel)
      requires |unixSockets| < 0x1_0000_0000 && |netProtoSockets| < 0x1_0000_0000
      modifies parcel
      ensures parcel.unread == old(parcel.unread) + EncodeSockets(View())
    {
      WriteClamped(parcel, EncodeUnix, SOCKET_INFO_LIST_MAX_SIZE, unixSockets);
      WriteClamped(parcel, EncodeNetProto, SOCKET_INFO_LIST_MAX_SIZE, netProtoSockets);
      Assoc(old(parcel.unread), EncodeList(EncodeUnix, SOCKET_INFO_LIST_MAX_SIZE, unixSockets),
            EncodeList(EncodeNetProto, SOCKET_INFO_LIST_MAX_SIZE, netProtoSockets));
    }

    /** The receiver's lists are emptied first, so what it held does not matter. */
    method Unmarshalling(parcel: Parcel) returns (ok: bool)
      modifies parcel, this
      ensures Read(ok, View(), parcel.unread) == DecodeSockets(old(parcel.unread))
    {
      unixSockets, netProtoSockets := [], [];
      ok, unixSockets := ReadClamped(parcel, DecodeUnix, SOCKET_INFO_LIST_MAX_SIZE, unixSockets);
      ghost var u := DecodeList(DecodeUnix, SOCKET_INFO_LIST_MAX_SIZE, old(parcel.unread));
      assert [] + u.value == u.value;
      if !ok {
        return;
      }
      ok, netProtoSockets := ReadClamped(parcel, DecodeNetProto, SOCKET_INFO_LIST_MAX_SIZE, netProtoSockets);
      ghost var n := DecodeList(DecodeNetProto, SOCKET_INFO_LIST_MAX_SIZE, u.rest);
      assert [] + n.value == n.value;
    }
  }

  /** Both lists come back cut to 1024 and nothing of the trailing content is touched. */
  lemma {:induction false} SocketsRoundTrip(s: Sockets, rest: seq<Token>)
    ensures DecodeSockets(EncodeSockets(s) + rest)
         == Read(true, Sockets(Clamped(1024, s.unixSockets),
                               Clamped(1024, s.netProtoSockets)), rest)
  {
    var tail := EncodeList(EncodeNetProto, SOCKET_INFO_LIST_MAX_SIZE, s.netProtoSockets);
    Assoc(EncodeList(EncodeUnix, SOCKET_INFO_LIST_MAX_SIZE, s.unixSockets), tail, rest);
    UnixRoundTrips();
    ClampedRoundTrip(EncodeUnix, DecodeUnix, SOCKET_INFO_LIST_MAX_SIZE, s.unixSockets, tail + rest);
    NetProtoRoundTrips();
    ClampedRoundTrip(EncodeNetProto, DecodeNetProto, SOCKET_INFO_LIST_MAX_SIZE, s.netProtoSockets, rest);
  }

  // ---------------------------------------------------------------------------------------
  // Ping results

  datatype IcmpResponse = IcmpResponse(bytes: nat, icmpSeq: nat, ttl: nat, costTime: nat, from: string)

  datatype Ping = Ping(host: string, ipAddr: string, dateSize: nat, payloadSize: nat, transCount: nat, recvCount: nat,
                       responses: seq<IcmpResponse>)

  const ICMP_FIELDS := [ShortField, ShortField, ShortField, WordField, TextField]
  const PING_FIELDS := [TextField, TextField, ShortField, ShortField, ShortField, ShortField]

  function EncodeIcmp(i: IcmpResponse): seq<Token> {
    [U16(i.bytes), U16(i.icmpSeq), U16(i.ttl), U32(i.costTime), Str(i.from)]
  }

  function IcmpOf(r: Read<seq<Token>>): Read<IcmpResponse> {
    var v := r.value;
    if !r.ok then Read(false, IcmpResponse(0, 0, 0, 0, ""), r.rest)
    else Read(true, IcmpResponse(ShortAt(v, 0, 0), ShortAt(v, 1, 0), ShortAt(v, 2, 0), WordAt(v, 3, 0),
                                 TextAt(v, 4, "")), r.rest)
  }

  function DecodeIcmp(ts: seq<Token>): Read<IcmpResponse> {
    IcmpOf(ReadFields(ICMP_FIELDS, ts))
  }

  lemma {:induction false} IcmpFits(i: IcmpResponse)
    ensures Fits(EncodeIcmp(i), ICMP_FIELDS)
  {
  }

  lemma {:induction false} IcmpIsBack(i: IcmpResponse, rest: seq<Token>)
    ensures IcmpOf(Read(true, EncodeIcmp(i), rest)) == Read(true, i, rest)
  {
  }

  lemma {:induction false} IcmpRoundTrips()
    ensures RoundTrips(EncodeIcmp, DecodeIcmp, Identity<IcmpResponse>)
  {
    forall i, rest ensures DecodeIcmp(EncodeIcmp(i) + rest) == Read(true, i, rest) {
      IcmpFits(i);
      PopFields(EncodeIcmp(i), ICMP_FIELDS, rest);
      IcmpIsBack(i, rest);
    }
  }

  function PingHead(p: Ping): seq<Token> {
    [Str(p.host), Str(p.ipAddr), U16(p.dateSize), U16(p.payloadSize), U16(p.transCount), U16(p.recvCount)]
  }

  function EncodePing(p: Ping): seq<Token> {
    PingHead(p) + EncodeList(EncodeIcmp, ICMP_SEQ_LIST_MAX_SIZE, p.responses)
  }

  /** The receiver after its first |v| fields have been read. */
  function FillPing(prev: Ping, v: seq<Token>): Ping {
    prev.(host := TextAt(v, 0, prev.host),
          ipAddr := TextAt(v, 1, prev.ipAddr),
          dateSize := ShortAt(v, 2, prev.dateSize),
          payloadSize := ShortAt(v, 3, prev.payloadSize),
          transCount := ShortAt(v, 4, prev.transCount),
          recvCount := ShortAt(v, 5, prev.recvCount))
  }

  function DecodePing(prev: Ping, ts: seq<Token>): Read<Ping> {
    var r := ReadFields(PING_FIELDS, ts);
    var p := FillPing(prev, r.value);
    if !r.ok then Read(false, p, r.rest)
    else
      var l := DecodeList(DecodeIcmp, ICMP_SEQ_LIST_MAX_SIZE, r.rest);
      Read(l.ok, p.(responses := prev.responses + l.value), l.rest)
  }

  class NetDiagPingResult {
    var host: string
    var ipAddr: string
    var dateSize: nat
    var payloadSize: nat
    var transCount: nat
    var recvCount: nat
    var responses: seq<IcmpResponse>

    function View(): Ping
      reads this
    {
      Ping(host, ipAddr, dateSize, payloadSize, transCount, recvCount, responses)
    }

    method Marshalling(parcel: Parcel)
      requires |responses| < 0x1_0000_0000
      modifies parcel
      ensures parcel.unread == old(parcel.unread) + EncodePing(View())
    {
      parcel.Append(PingHead(View()));
      WriteClamped(parcel, EncodeIcmp, ICMP_SEQ_LIST_MAX_SIZE, responses);
      Assoc(old(parcel.unread), PingHead(View()), EncodeList(EncodeIcmp, ICMP_SEQ_LIST_MAX_SIZE, responses));
    }

    method Unmarshalling(parcel: Parcel) returns (ok: bool)
      modifies parcel, this
      ensures Read(ok, View(), parcel.unread) == DecodePing(old(View()), old(parcel.unread))
    {
      var v;
      ok, v := parcel.TakeFields(PING_FIELDS);
      host, ipAddr := TextAt(v, 0, host), TextAt(v, 1, ipAddr);
      dateSize, payloadSize := ShortAt(v, 2, dateSize), ShortAt(v, 3, payloadSize);
      transCount, recvCount := ShortAt(v, 4, transCount), ShortAt(v, 5, recvCount);
      if !ok {
        return;
      }
      ok, responses := ReadClamped(parcel, DecodeIcmp, ICMP_SEQ_LIST_MAX_SIZE, responses);
    }
  }

  /** Reading into an object replaces its six fields but appends to its response list. */
  lemma {:induction false} PingRoundTrip(p: Ping, prev: Ping, rest: seq<Token>)
    ensures DecodePing(prev, EncodePing(p) + rest)
         == Read(true, p.(responses := prev.responses + Clamped(1024, p.responses)), rest)
  {
    var tail := EncodeList(EncodeIcmp, ICMP_SEQ_LIST_MAX_SIZE, p.responses);
    Assoc(PingHead(p), tail, rest);
    PopFields(PingHead(p), PING_FIELDS, tail + rest);
    IcmpRoundTrips();
    ClampedRoundTrip(EncodeIcmp, DecodeIcmp, ICMP_SEQ_LIST_MAX_SIZE, p.responses, rest);
  }

  /** So the object equals the one written, cut to its limit, just when its list was empty before. */
  lemma {:induction false} PingIsRestoredIffListWasEmpty(p: Ping, prev: Ping, rest: seq<Token>)
    ensures prev.responses == []
       <==> DecodePing(prev, EncodePing(p) + rest).value == p.(responses := Clamped(1024, p.responses))
  {
    PingRoundTrip(p, prev, rest);
    var l := Clamped(ICMP_SEQ_LIST_MAX_SIZE, p.responses);
    assert |prev.responses + l| == |prev.responses| + |l|;
    assert [] + l == l;
  }

  // ---------------------------------------------------------------------------------------
  // Interface configurations

  datatype Iface = Iface(ifaceName: string, linkEncap: string, macAddr: string, ipv4Addr: string, ipv4Bcast: string,
                         ipv4Mask: string, ipv6Addrs: seq<(string, string)>,
                         mtu: nat, txQueueLen: nat, rxBytes: nat, txBytes: nat, isUp: bool)

  const ADDR_FIELDS := [TextField, TextField]
  const IFACE_FIELDS := [TextField, TextField, TextField, TextField, TextField, TextField]
  const IFACE_COUNTERS := [WordField, WordField, WordField, WordField, FlagField]

  function EncodeAddr(a: (string, string)): seq<Token> {
    [Str(a.0), Str(a.1)]
  }

  function AddrOf(r: Read<seq<Token>>): Read<(string, string)> {
    if !r.ok then Read(false, ("", ""), r.rest) else Read(true, (TextAt(r.value, 0, ""), TextAt(r.value, 1, "")), r.rest)
  }

  function DecodeAddr(ts: seq<Token>): Read<(string, string)> {
    AddrOf(ReadFields(ADDR_FIELDS, ts))
  }

  lemma {:induction false} AddrIsBack(a: (string, string), rest: seq<Token>)
    ensures Fits(EncodeAddr(a), ADDR_FIELDS) && AddrOf(Read(true, EncodeAddr(a), rest)) == Read(true, a, rest)
  {
  }

  lemma {:induction false} AddrRoundTrips()
    ensures RoundTrips(EncodeAddr, DecodeAddr, Identity<(string, string)>)
  {
    forall a, rest ensures DecodeAddr(EncodeAddr(a) + rest) == Read(true, a, rest) {
      AddrIsBack(a, rest);
      PopFields(EncodeAddr(a), ADDR_FIELDS, rest);
    }
  }

  function IfaceHead(c: Iface): seq<Token> {
    [Str(c.ifaceName), Str(c.linkEncap), Str(c.macAddr), Str(c.ipv4Addr), Str(c.ipv4Bcast), Str(c.ipv4Mask)]
  }

  function IfaceCounters(c: Iface): seq<Token> {
    [U32(c.mtu), U32(c.txQueueLen), U32(c.rxBytes), U32(c.txBytes), Flag(c.isUp)]
  }

  function EncodeIface(c: Iface): seq<Token> {
    IfaceHead(c) + (EncodeList(EncodeAddr, IFCONFIG_MAX_IPV6_ADDR_NUM, c.ipv6Addrs) + IfaceCounters(c))
  }

  function FillIface(prev: Iface, v: seq<Token>): Iface {
    prev.(ifaceName := TextAt(v, 0, prev.ifaceName),
          linkEncap := TextAt(v, 1, prev.linkEncap),
          macAddr := TextAt(v, 2, prev.macAddr),
          ipv4Addr := TextAt(v, 3, prev.ipv4Addr),
          ipv4Bcast := TextAt(v, 4, prev.ipv4Bcast),
          ipv4Mask := TextAt(v, 5, prev.ipv4Mask))
  }

  function FillCounters(prev: Iface, v: seq<Token>): Iface {
    prev.(mtu := WordAt(v, 0, prev.mtu),
          txQueueLen := WordAt(v, 1, prev.txQueueLen),
          rxBytes := WordAt(v, 2, prev.rxBytes),
          txBytes := WordAt(v, 3, prev.txBytes),
          isUp := FlagAt(v, 4, prev.isUp))
  }

  function DecodeIface(prev: Iface, ts: seq<Token>): Read<Iface> {
    var r := ReadFields(IFACE_FIELDS, ts);
    var c := FillIface(prev, r.value);
    if r.ok then DecodeIfaceBody(c, r.rest) else Read(false, c, r.rest)
  }

  function DecodeIfaceBody(c: Iface, ts: seq<Token>): Read<Iface> {
    var l := DecodeList(DecodeAddr, IFCONFIG_MAX_IPV6_ADDR_NUM, ts);
    var d := c.(ipv6Addrs := c.ipv6Addrs + l.value);
    if !l.ok then Read(false, d, l.rest)
    else
      var t := ReadFields(IFACE_COUNTERS, l.rest);
      Read(t.ok, FillCounters(d, t.value), t.rest)
  }

  class NetDiagIfaceConfig {
    var config: Iface

    method Marshalling(parcel: Parcel)
      requires |config.ipv6Addrs| < 0x1_0000_0000
      modifies parcel
      ensures parcel.unread == old(parcel.unread) + EncodeIface(config)
    {
      ghost var list := EncodeList(EncodeAddr, IFCONFIG_MAX_IPV6_ADDR_NUM, config.ipv6Addrs);
      parcel.Append(IfaceHead(config));
      WriteClamped(parcel, EncodeAddr, IFCONFIG_MAX_IPV6_ADDR_NUM, config.ipv6Addrs);
      parcel.Append(IfaceCounters(config));
      Assoc(old(parcel.unread) + IfaceHead(config), list, IfaceCounters(config));
      Assoc(old(parcel.unread), IfaceHead(config), list + IfaceCounters(config));
    }

    method Unmarshalling(parcel: Parcel) returns (ok: bool)
      modifies parcel, this
      ensures Read(ok, config, parcel.unread) == DecodeIface(old(config), old(parcel.unread))
    {
      var v, w, addrs;
      ok, v := parcel.TakeFields(IFACE_FIELDS);
      config := FillIface(config, v);
      if !ok {
        return;
      }
      ok, addrs := ReadClamped(parcel, DecodeAddr, IFCONFIG_MAX_IPV6_ADDR_NUM, config.ipv6Addrs);
      config := config.(ipv6Addrs := addrs);
      if !ok {
        return;
      }
      ok, w := parcel.TakeFields(IFACE_COUNTERS);
      config := FillCounters(config, w);
    }
  }

  lemma {:induction false} IfaceIsFilled(c: Iface, prev: Iface, addrs: seq<(string, string)>)
    ensures FillCounters(FillIface(prev, IfaceHead(c)).(ipv6Addrs := addrs), IfaceCounters(c)) == c.(ipv6Addrs := addrs)
  {
  }

  lemma {:induction false} IfaceBodyRoundTrip(c: Iface, d: Iface, rest: seq<Token>)
    ensures var list := EncodeList(EncodeAddr, IFCONFIG_MAX_IPV6_ADDR_NUM, c.ipv6Addrs);
            var addrs := d.ipv6Addrs + Clamped(IFCONFIG_MAX_IPV6_ADDR_NUM, c.ipv6Addrs);
            DecodeIfaceBody(d, list + (IfaceCounters(c) + rest)) ==
            Read(true, FillCounters(d.(ipv6Addrs := addrs), IfaceCounters(c)), rest)
  {
    AddrRoundTrips();
    ClampedRoundTrip(EncodeAddr, DecodeAddr, IFCONFIG_MAX_IPV6_ADDR_NUM, c.ipv6Addrs, IfaceCounters(c) + rest);
    PopFields(IfaceCounters(c), IFACE_COUNTERS, rest);
  }

  lemma {:induction false} IfaceRoundTrip(c: Iface, prev: Iface, rest: seq<Token>)
    ensures DecodeIface(prev, EncodeIface(c) + rest)
         == Read(true, c.(ipv6Addrs := prev.ipv6Addrs + Clamped(64, c.ipv6Addrs)), rest)
  {
    var list := EncodeList(EncodeAddr, IFCONFIG_MAX_IPV6_ADDR_NUM, c.ipv6Addrs);
    Assoc(IfaceHead(c), list + IfaceCounters(c), rest);
    Assoc(list, IfaceCounters(c), rest);
    PopFields(IfaceHead(c), IFACE_FIELDS, list + (IfaceCounters(c) + rest));
    IfaceBodyRoundTrip(c, FillIface(prev, IfaceHead(c)), rest);
    IfaceIsFilled(c, prev, prev.ipv6Addrs + Clamped(IFCONFIG_MAX_IPV6_ADDR_NUM, c.ipv6Addrs));
  }

  lemma {:induction false} IfaceIsRestoredIffListWasEmpty(c: Iface, prev: Iface, rest: seq<Token>)
    ensures prev.ipv6Addrs == []
       <==> DecodeIface(prev, EncodeIface(c) + rest).value
            == c.(ipv6Addrs := Clamped(64, c.ipv6Addrs))
  {
    IfaceRoundTrip(c, prev, rest);
    var l := Clamped(IFCONFIG_MAX_IPV6_ADDR_NUM, c.ipv6Addrs);
    assert |prev.ipv6Addrs + l| == |prev.ipv6Addrs| + |l|;
    assert [] + l == l;
  }
}
