/** What the readers of the firewall rules accept and yield, for every parcel: broken off, or with other
    tokens than the writers put there. */
module FirewallReads {
  import opened Parcels
  import opened FirewallCodec

  /** The first `n` tokens are all there and are numbers. */
  predicate Numbers(ts: seq<Token>, n: nat) {
    |ts| >= n && forall i :: 0 <= i < n ==> ts[i].I32?
  }

  predicate StrAt(ts: seq<Token>, i: nat) {
    i < |ts| && ts[i].Str?
  }

  predicate I32At(ts: seq<Token>, i: nat) {
    i < |ts| && ts[i].I32?
  }

  predicate U8At(ts: seq<Token>, i: nat) {
    i < |ts| && ts[i].U8?
  }

  // A read at position `k` of a parcel.

  lemma {:induction false} I32From(ts: seq<Token>, k: nat, init: int)
    requires k <= |ts|
    ensures ReadI32(ts[k..], init) == if I32At(ts, k) then Read(true, ts[k].i32, ts[k + 1..]) else Read(false, init, ts[k..])
  {
    if k < |ts| {
      assert ts[k..][0] == ts[k] && ts[k..][1..] == ts[k + 1..];
    }
  }

  lemma {:induction false} StrFrom(ts: seq<Token>, k: nat, init: string)
    requires k <= |ts|
    ensures ReadStr(ts[k..], init) == if StrAt(ts, k) then Read(true, ts[k].str, ts[k + 1..]) else Read(false, init, ts[k..])
  {
    if k < |ts| {
      assert ts[k..][0] == ts[k] && ts[k..][1..] == ts[k + 1..];
    }
  }

  lemma {:induction false} U8From(ts: seq<Token>, k: nat, init: nat)
    requires k <= |ts|
    ensures ReadU8(ts[k..], init) == if U8At(ts, k) then Read(true, ts[k].u8, ts[k + 1..]) else Read(false, init, ts[k..])
  {
    if k < |ts| {
      assert ts[k..][0] == ts[k] && ts[k..][1..] == ts[k + 1..];
    }
  }

  /** An IP rule is read just when four numbers lead the parcel; the protocol is 0 when it is missing. */
  lemma {:induction false} IpRuleIsRead(ts: seq<Token>)
    ensures DecodeIpRule(ts).ok <==> Numbers(ts, 4)
    ensures Numbers(ts, 4) ==>
      var r := DecodeIpRule(ts).value;
      && r.IpRule? && r.userId == ts[0].i32 && r.appUid == ts[1].i32 && r.direction == ts[2].i32
      && r.action == ts[3].i32 && r.protocol == if I32At(ts, 4) then ts[4].i32 else 0
  {
    assert ts[0..] == ts;
    I32From(ts, 0, 0);
    if Numbers(ts, 1) {
      I32From(ts, 1, 0);
      if Numbers(ts, 2) {
        I32From(ts, 2, 0);
        if Numbers(ts, 3) {
          I32From(ts, 3, 0);
          if Numbers(ts, 4) {
            I32From(ts, 4, 0);
          }
        }
      }
    }
  }

  /** A domain rule just when three numbers do. */
  lemma {:induction false} DomainRuleIsRead(ts: seq<Token>)
    ensures DecodeDomainRule(ts).ok <==> Numbers(ts, 3)
    ensures Numbers(ts, 3) ==>
      var r := DecodeDomainRule(ts).value;
      && r.DomainRule? && r.userId == ts[0].i32 && r.appUid == ts[1].i32 && r.action == ts[2].i32
      && r.domains == ReadDomains(ts[3..]).value
  {
    assert ts[0..] == ts;
    I32From(ts, 0, 0);
    if Numbers(ts, 1) {
      I32From(ts, 1, 0);
      if Numbers(ts, 2) {
        I32From(ts, 2, 0);
      }
    }
  }

  /** How many of the first two tokens are numbers, up to the first that is not. */
  function Leading(ts: seq<Token>): (k: nat)
    ensures k <= |ts|
  {
    if Numbers(ts, 2) then 2 else if Numbers(ts, 1) then 1 else 0
  }

  /** A DNS rule just when a text follows the leading numbers, of which either may be missing. */
  lemma {:induction false} DnsRuleIsRead(ts: seq<Token>)
    ensures DecodeDnsRule(ts).ok <==> StrAt(ts, Leading(ts))
    ensures StrAt(ts, Leading(ts)) ==>
      var k, r := Leading(ts), DecodeDnsRule(ts).value;
      && r.DnsRule? && r.userId == (if k >= 1 then ts[0].i32 else 0) && r.appUid == (if k == 2 then ts[1].i32 else 0)
      && r.primaryDns == ts[k].str && r.standbyDns == if StrAt(ts, k + 1) then ts[k + 1].str else ""
  {
    assert ts[0..] == ts;
    I32From(ts, 0, 0);
    if Numbers(ts, 1) {
      I32From(ts, 1, 0);
    }
    var k := Leading(ts);
    StrFrom(ts, k, "");
    if StrAt(ts, k) {
      StrFrom(ts, k + 1, "");
    }
  }

  /** Items of lists: a port range needs both its ports, a domain both its parts, a pair of DNS servers
      only the first. */
  lemma {:induction false} ItemsAreRead(ts: seq<Token>)
    ensures DecodePort(ts).ok <==> |ts| >= 2 && ts[0].U16? && ts[1].U16?
    ensures DecodeDomain(ts).ok <==> |ts| >= 2 && ts[0].Flag? && ts[1].Str?
    ensures DecodeDns(ts).ok <==> StrAt(ts, 0)
    ensures DecodeDns(ts).value == DnsParam(if StrAt(ts, 0) then ts[0].str else "",
                                            if StrAt(ts, 0) && StrAt(ts, 1) then ts[1].str else "")
  {
    if |ts| > 0 {
      assert |ts| > 1 ==> ts[1..][0] == ts[1];
    }
  }

  /** The external rule's header: name, direction, action and type must be there; the id before the name
      and the description after it may be missing. */
  function NameAt(ts: seq<Token>): nat {
    if I32At(ts, 0) then 1 else 0
  }

  function DirectionAt(ts: seq<Token>): nat {
    NameAt(ts) + if StrAt(ts, NameAt(ts) + 1) then 2 else 1
  }

  predicate HeadIsThere(ts: seq<Token>) {
    StrAt(ts, NameAt(ts)) && I32At(ts, DirectionAt(ts)) && I32At(ts, DirectionAt(ts) + 1) && I32At(ts, DirectionAt(ts) + 2)
  }

  lemma {:induction false} FullHeadIsRead(ts: seq<Token>)
    ensures DecodeFullHead(ts).ok <==> HeadIsThere(ts)
    ensures HeadIsThere(ts) ==>
      var n, d, r := NameAt(ts), DirectionAt(ts), DecodeFullHead(ts).value;
      && r.ruleId == (if n == 1 then ts[0].i32 else 0) && r.ruleName == ts[n].str
      && r.ruleDescription == (if d == n + 2 then ts[n + 1].str else "")
      && r.direction == ts[d].i32 && r.action == ts[d + 1].i32 && r.ruleType == ts[d + 2].i32
      && (r.isEnabled <==> d + 3 < |ts| && ts[d + 3] == Flag(true))
  {
    NameIsRead(ts);
    if StrAt(ts, NameAt(ts)) {
      KindIsRead(ts, DirectionAt(ts));
    }
  }

  lemma {:induction false} NameIsRead(ts: seq<Token>)
    ensures var ruleId, n := ReadI32(ts, 0), NameAt(ts);
            && ruleId.value == (if n == 1 then ts[0].i32 else 0)
            && var name := ReadStr(ruleId.rest, "");
            && name.ok == StrAt(ts, n)
            && (name.ok ==>
                  var description := ReadStr(name.rest, "");
                  && name.value == ts[n].str && DirectionAt(ts) <= |ts| && description.rest == ts[DirectionAt(ts)..]
                  && description.value == if DirectionAt(ts) == n + 2 then ts[n + 1].str else "")
  {
    assert ts[0..] == ts;
    I32From(ts, 0, 0);
    var n := NameAt(ts);
    if n <= |ts| {
      StrFrom(ts, n, "");
      if StrAt(ts, n) {
        StrFrom(ts, n + 1, "");
      }
    }
  }

  lemma {:induction false} KindIsRead(ts: seq<Token>, d: nat)
    requires d <= |ts|
    ensures var direction := ReadI32(ts[d..], 0);
            && direction.ok == I32At(ts, d)
            && (direction.ok ==>
                  var action := ReadI32(direction.rest, 0);
                  && direction.value == ts[d].i32 && action.ok == I32At(ts, d + 1)
                  && (action.ok ==>
                        var ruleType := ReadI32(action.rest, 0);
                        && action.value == ts[d + 1].i32 && ruleType.ok == I32At(ts, d + 2)
                        && (ruleType.ok ==>
                              && ruleType.value == ts[d + 2].i32
                              && (ReadFlag(ruleType.rest, false).value <==> d + 3 < |ts| && ts[d + 3] == Flag(true)))))
  {
    I32From(ts, d, 0);
    if I32At(ts, d) {
      I32From(ts, d + 1, 0);
      if I32At(ts, d + 1) {
        I32From(ts, d + 2, 0);
        if I32At(ts, d + 2) && d + 3 < |ts| {
          assert ts[d + 3..][0] == ts[d + 3];
        }
      }
    }
  }

  /** So a rule whose parcel breaks off is still read just when the fields whose reads are checked are
      there. */
  lemma {:induction false} IpRuleBreaksOff(r: Rule, ts: seq<Token>)
    requires r.IpRule? && ts <= EncodeRule(r)
    ensures DecodeIpRule(ts).ok <==> |ts| >= 4
  {
    HeadNumbers(EncodeIpHead(r), EncodeIpBody(r), ts, 4);
    IpRuleIsRead(ts);
  }

  lemma {:induction false} DomainRuleBreaksOff(r: Rule, ts: seq<Token>)
    requires r.DomainRule? && ts <= EncodeRule(r)
    ensures DecodeDomainRule(ts).ok <==> |ts| >= 3
  {
    HeadNumbers([I32(r.userId), I32(r.appUid), I32(r.action)], DomainList(r.domains), ts, 3);
    DomainRuleIsRead(ts);
  }

  lemma {:induction false} DnsRuleBreaksOff(r: Rule, ts: seq<Token>)
    requires r.DnsRule? && ts <= EncodeRule(r)
    ensures DecodeDnsRule(ts).ok <==> |ts| >= 3
  {
    DnsRuleIsRead(ts);
    assert Leading(ts) == if |ts| >= 2 then 2 else |ts|;
  }

  lemma {:induction false} HeadNumbers(head: seq<Token>, body: seq<Token>, ts: seq<Token>, k: nat)
    requires Numbers(head, k) && ts <= head + body
    ensures Numbers(ts, k) <==> |ts| >= k
  {
  }

  /** An address parameter just when family and type are there; the mask is 0 when it is missing. */
  lemma {:induction false} IpIsRead(ts: seq<Token>)
    ensures DecodeIp(ts).ok <==> U8At(ts, 0) && U8At(ts, 1)
    ensures U8At(ts, 0) && U8At(ts, 1) ==>
      var p := DecodeIp(ts).value;
      p.family == ts[0].u8 && p.kind == ts[1].u8 && p.mask == if U8At(ts, 2) then ts[2].u8 else 0
  {
    assert ts[0..] == ts;
    U8From(ts, 0, 0);
    if U8At(ts, 0) {
      U8From(ts, 1, 0);
      if U8At(ts, 1) {
        U8From(ts, 2, 0);
      }
    }
  }

  // ---------------------------------------------------------------------------------------
  // An address parameter that breaks off

  /** Where byte `i` of the start address is among the bytes; that of the end follows it. */
  function Pos(kind: nat, i: nat): nat {
    if kind == 2 then 2 * i else i
  }

  lemma {:induction false} ByteAt(p: IpParam, n: nat, i: nat)
    requires i < n <= 16
    ensures |EncodeV6(p, n)| == Pos(p.kind, n)
    ensures EncodeV6(p, n)[Pos(p.kind, i)] == U8(p.start6[i])
    ensures p.kind == 2 ==> EncodeV6(p, n)[2 * i + 1] == U8(p.end6[i])
  {
    if i + 1 < n {
      ByteAt(p, n - 1, i);
    } else if n > 1 {
      ByteAt(p, n - 1, 0);
    } else {
      assert EncodeV6(p, 0) == [];
    }
  }

  /** The bytes of which the parcel has the tokens, and 0 for the others. */
  ghost predicate BytesUpTo(p: IpParam, n: nat, c: nat, r: Pair6) {
    && n <= 16 && |r.start| == |r.end| == n
    && (forall i :: 0 <= i < n ==> r.start[i] == if Pos(p.kind, i) < c then p.start6[i] else 0)
    && (forall i :: 0 <= i < n ==> r.end[i] == if p.kind == 2 && 2 * i + 1 < c then p.end6[i] else 0)
  }

  /** Where the reading is after `n` bytes of a parcel with `c` tokens. */
  function Reached(kind: nat, n: nat, c: nat): (k: nat)
    ensures k <= c
  {
    if Pos(kind, n) < c then Pos(kind, n) else c
  }

  lemma {:induction false} V6BrokenOff(p: IpParam, c: nat)
    requires c <= |EncodeV6(p, IPV6_ARRAY_SIZE)|
    ensures var ts := EncodeV6(p, IPV6_ARRAY_SIZE)[..c];
            BytesUpTo(p, 16, c, DecodeV6(p.kind, IPV6_ARRAY_SIZE, ts))
  {
    var ts := EncodeV6(p, IPV6_ARRAY_SIZE)[..c];
    forall i | 0 <= i < 16 ensures HasByte(p, i, ts) {
      ByteAt(p, IPV6_ARRAY_SIZE, i);
    }
    BytesAreRead(p, IPV6_ARRAY_SIZE, ts);
  }

  lemma {:induction false} BytesAreRead(p: IpParam, n: nat, ts: seq<Token>)
    requires n <= 16 && forall i :: 0 <= i < n ==> HasByte(p, i, ts)
    ensures BytesUpTo(p, n, |ts|, DecodeV6(p.kind, n, ts))
    ensures DecodeV6(p.kind, n, ts).rest == ts[Reached(p.kind, n, |ts|)..]
  {
    if n > 0 {
      BytesAreRead(p, n - 1, ts);
      OneByteRead(p, n - 1, ts, DecodeV6(p.kind, n - 1, ts));
    }
  }

  /** The tokens of byte `n`, as far as they are there. */
  predicate HasByte(p: IpParam, n: nat, ts: seq<Token>)
    requires n < 16
  {
    && (Pos(p.kind, n) < |ts| ==> ts[Pos(p.kind, n)] == U8(p.start6[n]))
    && (p.kind == 2 && 2 * n + 1 < |ts| ==> ts[2 * n + 1] == U8(p.end6[n]))
  }

  lemma {:induction false} OneByteRead(p: IpParam, n: nat, ts: seq<Token>, r: Pair6)
    requires n < 16 && HasByte(p, n, ts)
    requires r.rest == ts[Reached(p.kind, n, |ts|)..]
    requires BytesUpTo(p, n, |ts|, r)
    ensures var s := DecodeByte(p.kind, r);
            BytesUpTo(p, n + 1, |ts|, s) && s.rest == ts[Reached(p.kind, n + 1, |ts|)..]
  {
    ByteRead(p, n, ts, r);
    var s := DecodeByte(p.kind, r);
    assert forall i :: 0 <= i < n ==> s.start[i] == r.start[i] && s.end[i] == r.end[i];
  }

  lemma {:induction false} ByteRead(p: IpParam, n: nat, ts: seq<Token>, r: Pair6)
    requires n < 16 && HasByte(p, n, ts)
    requires r.rest == ts[Reached(p.kind, n, |ts|)..]
    ensures var c := |ts|;
            DecodeByte(p.kind, r) == Pair6(r.start + [if Pos(p.kind, n) < c then p.start6[n] else 0],
                                           r.end + [if p.kind == 2 && 2 * n + 1 < c then p.end6[n] else 0],
                                           ts[Reached(p.kind, n + 1, c)..])
  {
    var k := Reached(p.kind, n, |ts|);
    U8From(ts, k, 0);
    if k < |ts| && p.kind == 2 {
      U8From(ts, k + 1, 0);
    }
  }

  /** Broken off after `n` tokens, an address parameter has the fields whose tokens are there, and 0 for
      the others; without its first two it is refused. */
  lemma {:induction false} IpBrokenOff(p: IpParam, n: nat)
    requires n <= |EncodeIp(p)|
    ensures var r, m := DecodeIp(EncodeIp(p)[..n]), if n >= 3 then n - 3 else 0;
            && (r.ok <==> n >= 2)
            && (n >= 2 ==>
                  && r.value.family == p.family && r.value.kind == p.kind && r.value.mask == (if n >= 3 then p.mask else 0)
                  && (p.family == 1 ==> r.value.start4 == (if m >= 1 then p.start4 else 0))
                  && (p.family == 1 ==> r.value.end4 == (if p.kind == 2 && m >= 2 then p.end4 else 0))
                  && (p.family != 1 ==> BytesUpTo(p, 16, m, Pair6(r.value.start6, r.value.end6, []))))
  {
    IpIsRead(EncodeIp(p)[..n]);
    if n >= 2 {
      var mask, m := if n >= 3 then p.mask else 0, if n >= 3 then n - 3 else 0;
      HeaderIsRead(p, n);
      if p.family == 1 {
        V4BrokenOff(p, mask, m);
      } else {
        V6BrokenOff(p, m);
      }
    }
  }

  /** The parameter before its address is read. */
  function Header(p: IpParam, mask: nat): IpParam {
    IpParam(p.family, p.kind, mask, 0, 0, Zeros(16), Zeros(16))
  }

  lemma {:induction false} HeaderIsRead(p: IpParam, n: nat)
    requires 2 <= n <= |EncodeIp(p)|
    ensures DecodeIp(EncodeIp(p)[..n]) ==
            DecodeAddress(Header(p, if n >= 3 then p.mask else 0), EncodeAddress(p)[..if n >= 3 then n - 3 else 0])
  {
    var ts := EncodeIp(p)[..n];
    assert ts[0..] == ts;
    U8From(ts, 0, 0);
    U8From(ts, 1, 0);
    U8From(ts, 2, 0);
    assert ts[if n >= 3 then 3 else 2..] == EncodeAddress(p)[..if n >= 3 then n - 3 else 0];
  }

  lemma {:induction false} V4BrokenOff(p: IpParam, mask: nat, m: nat)
    requires p.family == 1 && m <= |EncodeAddress(p)|
    ensures var a := DecodeAddress(Header(p, mask), EncodeAddress(p)[..m]).value;
            a == Header(p, mask).(start4 := if m >= 1 then p.start4 else 0, end4 := if p.kind == 2 && m >= 2 then p.end4 else 0)
  {
  }
}
