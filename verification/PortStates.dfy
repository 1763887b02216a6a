/** The port-state codec: two vectors, each refused as a whole when longer than 1000. */
module PortStates {
  import opened Parcels

  const PORT_STATES_MAX_LIST_SIZE: nat := 1000

  datatype TcpState = TcpState(localIp: string, localPort: nat, remoteIp: string, remotePort: nat, uid: nat, pid: nat,
                               state: nat)
  datatype UdpState = UdpState(localIp: string, localPort: nat, uid: nat, pid: nat)

  const TCP_FIELDS := [TextField, ShortField, TextField, ShortField, WordField, WordField, OctetField]
  const UDP_FIELDS := [TextField, ShortField, WordField, WordField]
  const NO_TCP := TcpState("", 0, "", 0, 0, 0, 0)
  const NO_UDP := UdpState("", 0, 0, 0)

  function EncodeTcp(t: TcpState): seq<Token> {
    [Str(t.localIp), U16(t.localPort), Str(t.remoteIp), U16(t.remotePort), U32(t.uid), U32(t.pid), U8(t.state)]
  }

  function TcpOf(r: Read<seq<Token>>): Read<TcpState> {
    var v := r.value;
    if !r.ok then Read(false, NO_TCP, r.rest)
    else Read(true, TcpState(TextAt(v, 0, ""), ShortAt(v, 1, 0), TextAt(v, 2, ""), ShortAt(v, 3, 0),
                             WordAt(v, 4, 0), WordAt(v, 5, 0), OctetAt(v, 6, 0)), r.rest)
  }

  function DecodeTcp(ts: seq<Token>): Read<TcpState> {
    TcpOf(ReadFields(TCP_FIELDS, ts))
  }

  function EncodeUdp(u: UdpState): seq<Token> {
    [Str(u.localIp), U16(u.localPort), U32(u.uid), U32(u.pid)]
  }

  function UdpOf(r: Read<seq<Token>>): Read<UdpState> {
    var v := r.value;
    if !r.ok then Read(false, NO_UDP, r.rest)
    else Read(true, UdpState(TextAt(v, 0, ""), ShortAt(v, 1, 0), WordAt(v, 2, 0), WordAt(v, 3, 0)), r.rest)
  }

  function DecodeUdp(ts: seq<Token>): Read<UdpState> {
    UdpOf(ReadFields(UDP_FIELDS, ts))
  }

  lemma {:induction false} TcpFits(t: TcpState)
    ensures Fits(EncodeTcp(t), TCP_FIELDS)
  {
  }

  lemma {:induction false} TcpIsBack(t: TcpState, rest: seq<Token>)
    ensures TcpOf(Read(true, EncodeTcp(t), rest)) == Read(true, t, rest)
  {
  }

  lemma {:induction false} TcpRoundTrips()
    ensures RoundTrips(EncodeTcp, DecodeTcp, Identity<TcpState>)
  {
    forall t, rest ensures DecodeTcp(EncodeTcp(t) + rest) == Read(true, t, rest) {
      TcpFits(t);
      PopFields(EncodeTcp(t), TCP_FIELDS, rest);
      TcpIsBack(t, rest);
    }
  }

  lemma {:induction false} UdpFits(u: UdpState)
    ensures Fits(EncodeUdp(u), UDP_FIELDS)
  {
  }

  lemma {:induction false} UdpIsBack(u: UdpState, rest: seq<Token>)
    ensures UdpOf(Read(true, EncodeUdp(u), rest)) == Read(true, u, rest)
  {
  }

  lemma {:induction false} UdpRoundTrips()
    ensures RoundTrips(EncodeUdp, DecodeUdp, Identity<UdpState>)
  {
    forall u, rest ensures DecodeUdp(EncodeUdp(u) + rest) == Read(true, u, rest) {
      UdpFits(u);
      PopFields(EncodeUdp(u), UDP_FIELDS, rest);
      UdpIsBack(u, rest);
    }
  }

  // ---------------------------------------------------------------------------------------
  // Vectors

  function EncodeVector<T>(enc: T -> seq<Token>, xs: seq<T>): seq<Token> {
    [U32(|xs|)] + EncodeAll(enc, xs)
  }

  function DecodeVector<T>(dec: seq<Token> -> Read<T>, ts: seq<Token>): Read<seq<T>> {
    var n := ReadU32(ts, 0);
    if !n.ok || n.value > PORT_STATES_MAX_LIST_SIZE then Read(false, [], n.rest) else DecodeItems(dec, n.value, n.rest)
  }

  /** What std::vector::resize leaves of `xs`. */
  function Resized<T>(xs: seq<T>, n: nat, fill: T): (r: seq<T>)
    ensures |r| == n
    ensures forall i :: 0 <= i < n ==> r[i] == if i < |xs| then xs[i] else fill
  {
    if |xs| >= n then xs[..n] else Resized(xs, n - 1, fill) + [fill]
  }

  method WriteVector<T>(parcel: Parcel, enc: T -> seq<Token>, xs: seq<T>) returns (ok: bool)
    modifies parcel
    ensures ok <==> |xs| <= 1000
    ensures parcel.unread == old(parcel.unread) + if ok then EncodeVector(enc, xs) else []
  {
    if |xs| > PORT_STATES_MAX_LIST_SIZE {
      return false;
    }
    parcel.Write(U32(|xs|));
    ghost var head := parcel.unread;
    for i := 0 to |xs|
      invariant parcel.unread == head + EncodeAll(enc, xs[..i])
    {
      assert xs[..i + 1][..i] == xs[..i];
      Assoc(head, EncodeAll(enc, xs[..i]), enc(xs[i]));
      parcel.Append(enc(xs[i]));
    }
    assert xs[..|xs|] == xs;
    Assoc(old(parcel.unread), [U32(|xs|)], EncodeAll(enc, xs));
    ok := true;
  }

  /** The reading loop, over a temporary vector of the announced size. */
  method ReadItems<T>(parcel: Parcel, dec: seq<Token> -> Read<T>, size: nat, fill: T) returns (ok: bool, temp: seq<T>)
    modifies parcel
    ensures var r := DecodeItems(dec, size, old(parcel.unread));
            ok == r.ok && parcel.unread == r.rest && (ok ==> temp == r.value)
  {
    temp := Resized([], size, fill);
    for i := 0 to size
      invariant |temp| == size
      invariant Read(true, temp[..i], parcel.unread) == DecodeItems(dec, i, old(parcel.unread))
    {
      var x := dec(parcel.unread);
      parcel.unread := x.rest;
      if !x.ok {
        FailureSticks(dec, i + 1, size, old(parcel.unread));
        return false, temp;
      }
      ghost var before := temp[..i];
      temp := temp[i := x.value];
      assert temp[..i + 1] == before + [x.value];
    }
    assert temp[..size] == temp;
    ok := true;
  }

  // ---------------------------------------------------------------------------------------
  // The object

  datatype States = States(tcp: seq<TcpState>, udp: seq<UdpState>)

  predicate Writable(s: States) {
    |s.tcp| <= 1000 && |s.udp| <= 1000
  }

  function EncodeStates(s: States): seq<Token> {
    EncodeVector(EncodeTcp, s.tcp) + EncodeVector(EncodeUdp, s.udp)
  }

  function DecodeStates(ts: seq<Token>): Read<States> {
    var t := DecodeVector(DecodeTcp, ts);
    if !t.ok then Read(false, States([], []), t.rest)
    else
      var u := DecodeVector(DecodeUdp, t.rest);
      Read(u.ok, States(t.value, u.value), u.rest)
  }

  class NetPortStatesInfo {
    var tcp: seq<TcpState>
    var udp: seq<UdpState>

    constructor ()
      ensures tcp == [] && udp == []
    {
      tcp, udp := [], [];
    }

    function View(): States
      reads this
    {
      States(tcp, udp)
    }

    /** A vector that is too long stops the writing before any of its own tokens. */
    method Marshalling(parcel: Parcel) returns (ok: bool)
      modifies parcel
      ensures ok <==> Writable(View())
      ensures ok ==> parcel.unread == old(parcel.unread) + EncodeStates(View())
      ensures |tcp| > PORT_STATES_MAX_LIST_SIZE ==> parcel.unread == old(parcel.unread)
      ensures !ok && |tcp| <= PORT_STATES_MAX_LIST_SIZE ==>
        parcel.unread == old(parcel.unread) + EncodeVector(EncodeTcp, tcp)
    {
      ok := WriteVector(parcel, EncodeTcp, tcp);
      if !ok {
        return;
      }
      ok := WriteVector(parcel, EncodeUdp, udp);
      Assoc(old(parcel.unread), EncodeVector(EncodeTcp, tcp), EncodeVector(EncodeUdp, udp));
    }

    /** Resizes its output before the items are read: a failure among them leaves it resized. */
    method ReadTcpVector(parcel: Parcel) returns (ok: bool)
      modifies parcel, `tcp
      ensures var r := DecodeVector(DecodeTcp, old(parcel.unread));
              ok == r.ok && parcel.unread == r.rest && (ok ==> tcp == r.value)
      ensures var n := ReadU32(old(parcel.unread), 0);
              !ok ==> tcp == if n.ok && n.value <= PORT_STATES_MAX_LIST_SIZE then Resized(old(tcp), n.value, NO_TCP)
                             else old(tcp)
    {
      var size := ReadU32(parcel.unread, 0);
      parcel.unread := size.rest;
      if !size.ok || size.value > PORT_STATES_MAX_LIST_SIZE {
        return false;
      }
      var temp;
      tcp := Resized(tcp, size.value, NO_TCP);
      ok, temp := ReadItems(parcel, DecodeTcp, size.value, NO_TCP);
      if ok {
        tcp := temp;
      }
    }

    /** Touches its output only once every item has been read. */
    method ReadUdpVector(parcel: Parcel) returns (ok: bool)
      modifies parcel, `udp
      ensures var r := DecodeVector(DecodeUdp, old(parcel.unread));
              ok == r.ok && parcel.unread == r.rest && udp == if ok then r.value else old(udp)
    {
      var size := ReadU32(parcel.unread, 0);
      parcel.unread := size.rest;
      if !size.ok || size.value > PORT_STATES_MAX_LIST_SIZE {
        return false;
      }
      var temp;
      ok, temp := ReadItems(parcel, DecodeUdp, size.value, NO_UDP);
      if ok {
        udp := temp;
      }
    }

    /** A fresh object, or null. */
    static method Unmarshalling(parcel: Parcel) returns (made: NetPortStatesInfo?)
      modifies parcel
      ensures var r := DecodeStates(old(parcel.unread));
              && parcel.unread == r.rest && (made != null <==> r.ok)
              && (made != null ==> fresh(made) && made.View() == r.value)
    {
      made := null;
      var info := new NetPortStatesInfo();
      var ok := info.ReadTcpVector(parcel);
      if ok {
        ok := info.ReadUdpVector(parcel);
        if ok {
          made := info;
        }
      }
    }
  }

  // ---------------------------------------------------------------------------------------
  // The two codecs are exact inverses

  lemma {:induction false} VectorRoundTrip<T(!new)>(enc: T -> seq<Token>, dec: seq<Token> -> Read<T>, xs: seq<T>,
                                                    rest: seq<Token>)
    requires RoundTrips(enc, dec, Identity<T>) && |xs| <= PORT_STATES_MAX_LIST_SIZE
    ensures DecodeVector(dec, EncodeVector(enc, xs) + rest) == Read(true, xs, rest)
  {
    Assoc([U32(|xs|)], EncodeAll(enc, xs), rest);
    PopU32(|xs|, EncodeAll(enc, xs) + rest);
    ItemsRoundTrip(enc, dec, Identity<T>, xs, rest);
    IdentityMap(xs);
  }

  lemma {:induction false} StatesRoundTrip(s: States, rest: seq<Token>)
    requires Writable(s)
    ensures DecodeStates(EncodeStates(s) + rest) == Read(true, s, rest)
  {
    Assoc(EncodeVector(EncodeTcp, s.tcp), EncodeVector(EncodeUdp, s.udp), rest);
    TcpRoundTrips();
    VectorRoundTrip(EncodeTcp, DecodeTcp, s.tcp, EncodeVector(EncodeUdp, s.udp) + rest);
    UdpRoundTrips();
    VectorRoundTrip(EncodeUdp, DecodeUdp, s.udp, rest);
  }

  lemma {:induction false} TcpIsCanonical()
    ensures Canonical(EncodeTcp, DecodeTcp)
  {
    forall ts | DecodeTcp(ts).ok ensures ts == EncodeTcp(DecodeTcp(ts).value) + DecodeTcp(ts).rest {
      var r := ReadFields(TCP_FIELDS, ts);
      SevenFields(r.value);
    }
  }

  lemma {:induction false} SevenFields(v: seq<Token>)
    requires Fits(v, TCP_FIELDS)
    ensures v == EncodeTcp(TcpState(TextAt(v, 0, ""), ShortAt(v, 1, 0), TextAt(v, 2, ""), ShortAt(v, 3, 0),
                                    WordAt(v, 4, 0), WordAt(v, 5, 0), OctetAt(v, 6, 0)))
  {
    assert TCP_FIELDS[0] == TCP_FIELDS[2] == TextField;
    assert TCP_FIELDS[1] == TCP_FIELDS[3] == ShortField;
    assert TCP_FIELDS[4] == TCP_FIELDS[5] == WordField;
    assert TCP_FIELDS[6] == OctetField;
  }

  lemma {:induction false} UdpIsCanonical()
    ensures Canonical(EncodeUdp, DecodeUdp)
  {
    forall ts | DecodeUdp(ts).ok ensures ts == EncodeUdp(DecodeUdp(ts).value) + DecodeUdp(ts).rest {
      var v := ReadFields(UDP_FIELDS, ts).value;
      assert UDP_FIELDS[0] == TextField && UDP_FIELDS[1] == ShortField && UDP_FIELDS[2] == UDP_FIELDS[3] == WordField;
      assert v == EncodeUdp(DecodeUdp(ts).value);
    }
  }

  lemma {:induction false} VectorIsCanonical<T>(enc: T -> seq<Token>, dec: seq<Token> -> Read<T>, ts: seq<Token>)
    requires Canonical(enc, dec) && DecodeVector(dec, ts).ok
    ensures ts == EncodeVector(enc, DecodeVector(dec, ts).value) + DecodeVector(dec, ts).rest
    ensures |DecodeVector(dec, ts).value| <= PORT_STATES_MAX_LIST_SIZE
  {
    var n := ReadU32(ts, 0);
    var r := DecodeItems(dec, n.value, n.rest);
    ItemsAreCanonical(enc, dec, n.value, n.rest);
    Assoc([U32(n.value)], EncodeAll(enc, r.value), r.rest);
  }

  /** Whatever is accepted is the writer's own output for the value that was read. */
  lemma {:induction false} AcceptedIsWritten(ts: seq<Token>)
    requires DecodeStates(ts).ok
    ensures Writable(DecodeStates(ts).value)
    ensures ts == EncodeStates(DecodeStates(ts).value) + DecodeStates(ts).rest
  {
    var t := DecodeVector(DecodeTcp, ts);
    var u := DecodeVector(DecodeUdp, t.rest);
    TcpIsCanonical();
    VectorIsCanonical(EncodeTcp, DecodeTcp, ts);
    UdpIsCanonical();
    VectorIsCanonical(EncodeUdp, DecodeUdp, t.rest);
    Assoc(EncodeVector(EncodeTcp, t.value), EncodeVector(EncodeUdp, u.value), u.rest);
  }
}
