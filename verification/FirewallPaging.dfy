/**
 Sending a list of firewall rules page by page: the proxy's nested loop on one side, the stub that
 decodes each request on the other. The rules are marshalled through a virtual method, here `enc`,
 and unmarshalled by the reader of the announced type, here `dec`.
 */
module RulePages {
  import opened Parcels

  const FIREWALL_RULE_SIZE_MAX: nat := 1000
  const FIREWALL_IPC_IP_RULE_PAGE_SIZE: nat := 300
  const RULE_IP := 1
  const ERR_NONE := 0

  function PageSize(ruleType: int): (n: nat)
    ensures n > 0
  {
    if ruleType == RULE_IP then FIREWALL_IPC_IP_RULE_PAGE_SIZE else FIREWALL_RULE_SIZE_MAX
  }

  /** One request: the rule type, the number of rules, whether they are the last, the rules. */
  function Message<T>(enc: T -> seq<Token>, ruleType: int, page: seq<T>, finish: bool): seq<Token> {
    [I32(ruleType), U32(|page|), Flag(finish)] + EncodeAll(enc, page)
  }

  /** The requests for a whole list. */
  function Messages<T>(enc: T -> seq<Token>, ruleType: int, rules: seq<T>): seq<seq<Token>>
    decreases |rules|
  {
    if rules == [] then []
    else
      var n := Min(|rules|, PageSize(ruleType));
      [Message(enc, ruleType, rules[..n], n == |rules|)] + Messages(enc, ruleType, rules[n..])
  }

  lemma {:induction false} FirstMessage<T>(enc: T -> seq<Token>, ruleType: int, rules: seq<T>, n: nat)
    requires rules != [] && n == Min(|rules|, PageSize(ruleType))
    ensures n > 0
    ensures Messages(enc, ruleType, rules)
         == [Message(enc, ruleType, rules[..n], n == |rules|)] + Messages(enc, ruleType, rules[n..])
  {
  }

  lemma {:induction false} NextMessage<T>(enc: T -> seq<Token>, ruleType: int, rules: seq<T>, it: nat, next: nat,
                                          sent: seq<seq<Token>>)
    requires it < |rules| && next == it + Min(|rules| - it, PageSize(ruleType))
    ensures it < next <= |rules|
    ensures (sent + [Message(enc, ruleType, rules[it..next], next == |rules|)]) + Messages(enc, ruleType, rules[next..])
         == sent + Messages(enc, ruleType, rules[it..])
  {
    var left := rules[it..];
    FirstMessage(enc, ruleType, left, next - it);
    assert rules[it..next] == left[..next - it];
    assert rules[next..] == left[next - it..];
    Regroup(sent, Message(enc, ruleType, rules[it..next], next == |rules|), Messages(enc, ruleType, rules[next..]));
  }

  lemma {:induction false} Regroup(sent: seq<seq<Token>>, m: seq<Token>, later: seq<seq<Token>>)
    ensures (sent + [m]) + later == sent + ([m] + later)
  {
  }

  /** The inner loop: appends rules from index `start` on until `offset` are written. */
  method WritePage<T>(enc: T -> seq<Token>, data: Parcel, rules: seq<T>, start: nat, offset: nat) returns (it: nat)
    requires start + offset <= |rules|
    modifies data
    ensures it == start + offset
    ensures data.unread == old(data.unread) + EncodeAll(enc, rules[start..it])
  {
    it := start;
    ghost var head := data.unread;
    var i := 0;
    while i < offset && it != |rules|
      invariant 0 <= i <= offset && it == start + i
      invariant data.unread == head + EncodeAll(enc, rules[start..it])
      decreases offset - i
    {
      ghost var page := rules[start..it + 1];
      assert page[..|page| - 1] == rules[start..it];
      Assoc(head, EncodeAll(enc, rules[start..it]), enc(rules[it]));
      data.Append(enc(rules[it]));
      i, it := i + 1, it + 1;
    }
  }

  /** The parcel of one request, as it is handed to SendRequest. */
  method BuildMessage<T>(enc: T -> seq<Token>, ruleType: int, rules: seq<T>, it: nat, offset: nat)
    returns (message: seq<Token>, next: nat)
    requires it + offset <= |rules|
    ensures next == it + offset
    ensures message == Message(enc, ruleType, rules[it..next], next == |rules|)
  {
    var data := new Parcel();
    data.Write(I32(ruleType));
    data.Write(U32(offset));
    data.Write(Flag(offset == |rules| - it));
    assert data.unread == [I32(ruleType), U32(offset), Flag(offset == |rules| - it)];
    next := WritePage(enc, data, rules, it, offset);
    message := data.unread;
  }

  ghost predicate AllAccepted(replies: nat -> int, n: nat) {
    forall k: nat :: k < n ==> replies(k) == 0
  }

  /** `replies(k)` is what the k-th SendRequest returns; `sent` are the requests it was given. */
  method SetFirewallRules<T>(enc: T -> seq<Token>, ruleType: int, rules: seq<T>, replies: nat -> int)
    returns (ret: int, sent: seq<seq<Token>>)
    requires |rules| < 0x1_0000_0000
    ensures sent <= Messages(enc, ruleType, rules)
    ensures ret == 0 ==> sent == Messages(enc, ruleType, rules) && AllAccepted(replies, |sent|)
    ensures ret != 0 ==> sent != [] && ret == replies(|sent| - 1) && AllAccepted(replies, |sent| - 1)
  {
    var it := 0;
    var pageSize := if ruleType == RULE_IP then FIREWALL_IPC_IP_RULE_PAGE_SIZE else FIREWALL_RULE_SIZE_MAX;
    sent := [];
    assert rules[0..] == rules;
    while it != |rules|
      invariant 0 <= it <= |rules|
      invariant sent + Messages(enc, ruleType, rules[it..]) == Messages(enc, ruleType, rules)
      invariant AllAccepted(replies, |sent|)
      decreases |rules| - it
    {
      var offset := Min(|rules| - it, pageSize);
      var message, next := BuildMessage(enc, ruleType, rules, it, offset);
      NextMessage(enc, ruleType, rules, it, next, sent);
      var reply := replies(|sent|);
      sent := sent + [message];
      it := next;
      if reply != ERR_NONE {
        return reply, sent;
      }
    }
    assert rules[it..] == [];
    ret := ERR_NONE;
  }

  // ---------------------------------------------------------------------------------------
  // The receiving stub

  datatype Received<T> =
    | Unreadable
    | TooMany
    | Accepted(ruleType: int, finish: bool, rules: seq<T>)

  /** Rules that cannot be read are left out; the reading goes on. */
  function DecodeRules<T>(dec: (int, seq<Token>) -> Read<T>, ruleType: int, n: nat, ts: seq<Token>): Read<seq<T>> {
    if n == 0 then Read(true, [], ts)
    else
      var r := DecodeRules(dec, ruleType, n - 1, ts);
      var x := dec(ruleType, r.rest);
      Read(true, if x.ok then r.value + [x.value] else r.value, x.rest)
  }

  function Receive<T>(dec: (int, seq<Token>) -> Read<T>, ts: seq<Token>): Received<T> {
    var ruleType := ReadI32(ts, 0);
    if !ruleType.ok then Unreadable
    else
      var size := ReadU32(ruleType.rest, 0);
      if !size.ok then Unreadable
      else if size.value > PageSize(ruleType.value) then TooMany
      else
        var finish := ReadFlag(size.rest, false);
        if !finish.ok then Unreadable
        else Accepted(ruleType.value, finish.value, DecodeRules(dec, ruleType.value, size.value, finish.rest).value)
  }

  method CmdSetFirewallRules<T>(dec: (int, seq<Token>) -> Read<T>, data: Parcel) returns (r: Received<T>)
    modifies data
    ensures r == Receive(dec, old(data.unread))
  {
    var ruleType := ReadI32(data.unread, 0);
    if !ruleType.ok {
      return Unreadable;
    }
    var size := ReadU32(ruleType.rest, 0);
    if !size.ok {
      return Unreadable;
    }
    if size.value > PageSize(ruleType.value) {
      return TooMany;
    }
    var finish := ReadFlag(size.rest, false);
    if !finish.ok {
      return Unreadable;
    }
    data.unread := finish.rest;
    var list := [];
    for i := 0 to size.value
      invariant Read(true, list, data.unread) == DecodeRules(dec, ruleType.value, i, finish.rest)
    {
      var x := dec(ruleType.value, data.unread);
      data.unread := x.rest;
      if x.ok {
        list := list + [x.value];
      }
    }
    r := Accepted(ruleType.value, finish.value, list);
  }

  // ---------------------------------------------------------------------------------------
  // End to end

  /** The reader of the announced type undoes the marshalling of every rule of the list, up to
      normalisation, and stops where the rule ends. */
  ghost predicate Codec<T>(enc: T -> seq<Token>, dec: (int, seq<Token>) -> Read<T>, norm: T -> T, ruleType: int, rules: seq<T>) {
    forall i, rest :: 0 <= i < |rules| ==> dec(ruleType, enc(rules[i]) + rest) == Read(true, norm(rules[i]), rest)
  }

  lemma {:induction false} RulesRoundTrip<T>(enc: T -> seq<Token>, dec: (int, seq<Token>) -> Read<T>, norm: T -> T,
                                             ruleType: int, page: seq<T>, rest: seq<Token>)
    requires Codec(enc, dec, norm, ruleType, page)
    ensures DecodeRules(dec, ruleType, |page|, EncodeAll(enc, page) + rest) == Read(true, Map(norm, page), rest)
    decreases |page|
  {
    if page == [] {
      assert EncodeAll(enc, page) + rest == rest;
    } else {
      var n := |page| - 1;
      var tail := enc(page[n]) + rest;
      Assoc(EncodeAll(enc, page[..n]), enc(page[n]), rest);
      RulesRoundTrip(enc, dec, norm, ruleType, page[..n], tail);
      assert Map(norm, page) == Map(norm, page[..n]) + [norm(page[n])];
    }
  }

  /** A page of legal size is accepted and decodes to its rules in normal form. */
  lemma {:induction false} PageIsReceived<T>(enc: T -> seq<Token>, dec: (int, seq<Token>) -> Read<T>, norm: T -> T,
                                             ruleType: int, page: seq<T>, finish: bool)
    requires Codec(enc, dec, norm, ruleType, page) && |page| <= PageSize(ruleType)
    ensures Receive(dec, Message(enc, ruleType, page, finish)) == Accepted(ruleType, finish, Map(norm, page))
  {
    var body := EncodeAll(enc, page);
    var t1 := [Flag(finish)] + body;
    var t2 := [U32(|page|)] + t1;
    assert Message(enc, ruleType, page, finish) == [I32(ruleType)] + t2;
    PopI32(ruleType, t2);
    PopU32(|page|, t1);
    PopFlag(finish, body);
    RulesRoundTrip(enc, dec, norm, ruleType, page, []);
    assert body + [] == body;
  }

  /** The number of requests is the list length over the page size, rounded up. */
  lemma {:induction false} MessageCount<T>(enc: T -> seq<Token>, ruleType: int, rules: seq<T>)
    ensures |Messages(enc, ruleType, rules)| == (|rules| + PageSize(ruleType) - 1) / PageSize(ruleType)
    decreases |rules|
  {
    if rules != [] {
      var n := Min(|rules|, PageSize(ruleType));
      MessageCount(enc, ruleType, rules[n..]);
    }
  }

  /** In numbers: 300 IP rules (type 1) to a request, 1000 of any other type, and no more accepted. */
  lemma {:induction false} PageLimits<T>(enc: T -> seq<Token>, dec: (int, seq<Token>) -> Read<T>, ruleType: int,
                                         rules: seq<T>, finish: bool)
    ensures |Messages(enc, 1, rules)| == (|rules| + 299) / 300
    ensures ruleType != 1 ==> |Messages(enc, ruleType, rules)| == (|rules| + 999) / 1000
    ensures Receive(dec, Message(enc, ruleType, rules, finish)) == TooMany <==> |rules| > if ruleType == 1 then 300 else 1000
  {
    MessageCount(enc, 1, rules);
    MessageCount(enc, ruleType, rules);
    var body := EncodeAll(enc, rules);
    var t1 := [Flag(finish)] + body;
    var t2 := [U32(|rules|)] + t1;
    assert Message(enc, ruleType, rules, finish) == [I32(ruleType)] + t2;
    PopI32(ruleType, t2);
    PopU32(|rules|, t1);
    PopFlag(finish, body);
  }

  /** Everything the requests deliver, in order. */
  function Delivered<T>(dec: (int, seq<Token>) -> Read<T>, messages: seq<seq<Token>>): seq<T> {
    if messages == [] then []
    else
      var first := Receive(dec, messages[0]);
      (if first.Accepted? then first.rules else []) + Delivered(dec, messages[1..])
  }

  lemma {:induction false} FirstDelivered<T>(dec: (int, seq<Token>) -> Read<T>, m: seq<Token>, later: seq<seq<Token>>)
    requires Receive(dec, m).Accepted?
    ensures Delivered(dec, [m] + later) == Receive(dec, m).rules + Delivered(dec, later)
  {
    assert ([m] + later)[1..] == later;
  }

  lemma {:induction false} MapSplit<T>(norm: T -> T, rules: seq<T>, n: nat)
    requires n <= |rules|
    ensures Map(norm, rules) == Map(norm, rules[..n]) + Map(norm, rules[n..])
  {
  }

  /** The other side gets the whole list, in order and in normal form. */
  lemma {:induction false} ListIsDelivered<T>(enc: T -> seq<Token>, dec: (int, seq<Token>) -> Read<T>, norm: T -> T,
                                              ruleType: int, rules: seq<T>)
    requires Codec(enc, dec, norm, ruleType, rules)
    ensures Delivered(dec, Messages(enc, ruleType, rules)) == Map(norm, rules)
    decreases |rules|
  {
    if rules != [] {
      var n := Min(|rules|, PageSize(ruleType));
      FirstMessage(enc, ruleType, rules, n);
      var first := Message(enc, ruleType, rules[..n], n == |rules|);
      assert Receive(dec, first) == Accepted(ruleType, n == |rules|, Map(norm, rules[..n])) by {
        PageIsReceived(enc, dec, norm, ruleType, rules[..n], n == |rules|);
      }
      assert Codec(enc, dec, norm, ruleType, rules[n..]);
      ListIsDelivered(enc, dec, norm, ruleType, rules[n..]);
      FirstDelivered(dec, first, Messages(enc, ruleType, rules[n..]));
      MapSplit(norm, rules, n);
    }
  }

  /** The k-th request of a list is accepted under its type; only the last carries the finish flag. */
  lemma {:induction false} RequestArrives<T>(enc: T -> seq<Token>, dec: (int, seq<Token>) -> Read<T>, norm: T -> T,
                                             ruleType: int, rules: seq<T>, k: nat)
    requires Codec(enc, dec, norm, ruleType, rules) && k < |Messages(enc, ruleType, rules)|
    ensures var ms := Messages(enc, ruleType, rules);
            var r := Receive(dec, ms[k]);
            r.Accepted? && r.ruleType == ruleType && (r.finish <==> k == |ms| - 1)
    decreases |rules|
  {
    var n := Min(|rules|, PageSize(ruleType));
    FirstMessage(enc, ruleType, rules, n);
    if k == 0 {
      PageIsReceived(enc, dec, norm, ruleType, rules[..n], n == |rules|);
      assert Messages(enc, ruleType, rules[n..]) == [] <==> n == |rules|;
    } else {
      RequestArrives(enc, dec, norm, ruleType, rules[n..], k - 1);
    }
  }
}

/** The three rule types that travel by page. */
module FirewallPaging {
  import opened Parcels
  import opened FirewallCodec
  import opened RulePages

  const RULE_DOMAIN := 2
  const RULE_DNS := 3

  function DecodeRule(ruleType: int, ts: seq<Token>): Read<Rule> {
    if ruleType == RULE_IP then DecodeIpRule(ts)
    else if ruleType == RULE_DOMAIN then DecodeDomainRule(ts)
    else if ruleType == RULE_DNS then DecodeDnsRule(ts)
    else Read(false, DnsRule(0, 0, "", ""), ts)
  }

  predicate OfType(ruleType: int, r: Rule) {
    match r
    case IpRule(_, _, _, _, _, _, _, _, _, _) => ruleType == 1
    case DomainRule(_, _, _, _) => ruleType == 2
    case DnsRule(_, _, _, _) => ruleType == 3
  }

  lemma {:induction false} RuleRoundTrip(ruleType: int, r: Rule, rest: seq<Token>)
    requires OfType(ruleType, r)
    ensures DecodeRule(ruleType, EncodeRule(r) + rest) == Read(true, NormRule(r), rest)
  {
    match r
    case IpRule(_, _, _, _, _, _, _, _, _, _) => IpRuleRoundTrip(r, rest);
    case DomainRule(_, _, _, _) => DomainRuleRoundTrip(r, rest);
    case DnsRule(_, _, _, _) => DnsRuleRoundTrip(r, rest);
  }

  /** A request of any other type yields no rule, whatever it holds. */
  lemma {:induction false} OtherTypesYieldNothing(ts: seq<Token>)
    requires Receive(DecodeRule, ts).Accepted? && Receive(DecodeRule, ts).ruleType !in {1, 2, 3}
    ensures Receive(DecodeRule, ts).rules == []
  {
    var ruleType := ReadI32(ts, 0);
    var size := ReadU32(ruleType.rest, 0);
    NothingIsDecoded(ruleType.value, size.value, ReadFlag(size.rest, false).rest);
  }

  lemma {:induction false} NothingIsDecoded(ruleType: int, n: nat, ts: seq<Token>)
    requires ruleType !in {1, 2, 3}
    ensures DecodeRules(DecodeRule, ruleType, n, ts) == Read(true, [], ts)
  {
    if n > 0 {
      NothingIsDecoded(ruleType, n - 1, ts);
    }
  }

  lemma {:induction false} RulesAreCodec(ruleType: int, rules: seq<Rule>)
    requires forall i :: 0 <= i < |rules| ==> OfType(ruleType, rules[i])
    ensures Codec(EncodeRule, DecodeRule, NormRule, ruleType, rules)
  {
    forall i, rest | 0 <= i < |rules|
      ensures DecodeRule(ruleType, EncodeRule(rules[i]) + rest) == Read(true, NormRule(rules[i]), rest)
    {
      RuleRoundTrip(ruleType, rules[i], rest);
    }
  }

  /** Whatever the replies, the rules that arrive are the whole list in normal form if the call
      succeeded; if it failed, no request before the failing one announced the end. */
  lemma {:induction false} RulesArrive(ruleType: int, rules: seq<Rule>, sent: seq<seq<Token>>)
    requires forall i :: 0 <= i < |rules| ==> OfType(ruleType, rules[i])
    requires sent <= Messages(EncodeRule, ruleType, rules)
    ensures sent == Messages(EncodeRule, ruleType, rules) ==> Delivered(DecodeRule, sent) == Map(NormRule, rules)
    ensures forall k :: 0 <= k < |sent| ==>
      Receive(DecodeRule, sent[k]).Accepted? && Receive(DecodeRule, sent[k]).ruleType == ruleType
    ensures forall k :: 0 <= k < |sent| - 1 ==> !Receive(DecodeRule, sent[k]).finish
  {
    RulesAreCodec(ruleType, rules);
    ListIsDelivered(EncodeRule, DecodeRule, NormRule, ruleType, rules);
    forall k | 0 <= k < |sent|
      ensures Receive(DecodeRule, sent[k]).Accepted? && Receive(DecodeRule, sent[k]).ruleType == ruleType
      ensures k < |sent| - 1 ==> !Receive(DecodeRule, sent[k]).finish
    {
      RequestArrives(EncodeRule, DecodeRule, NormRule, ruleType, rules, k);
    }
  }
}
