/**
 Address ranges cut into prefixes. The loop advances an unsigned 32-bit address, which comes back to
 0 past 255.255.255.255; there the program shifts by 32, for which C++ defines no result.
 */
module Ip4Ranges {
  import opened Arithmetic
  import opened BitOps
  import opened PrefixBlocks

  const IPV4_BIT_COUNT: nat := 32
  const IPV4_MAX_VAL: nat := 0xFFFF_FFFF
  const UINT32_RANGE: nat := 0x1_0000_0000

  datatype Outcome = Refused | Success | UndefinedShift

  lemma {:induction false} ShiftZero(n: nat, k: nat)
    requires Shift(n, k) == 0
    ensures n < Pow2(k)
    decreases k
  {
    if k > 0 {
      ShiftZero(n / 2, k - 1);
    }
  }

  lemma {:induction false} ShiftNext(n: nat, k: nat)
    ensures Shift(n, k + 1) == Shift(n, k) / 2
  {
    ShiftAdd(n, k, 1);
    assert Shift(Shift(n, k), 1) == Shift(Shift(n, k) / 2, 0);
  }

  lemma {:induction false} ThirtyTwoBits(z: nat)
    requires Pow2(z) <= IPV4_MAX_VAL
    ensures z < IPV4_BIT_COUNT
  {
    Pow2Word();
    if z >= IPV4_BIT_COUNT {
      Pow2Monotone(IPV4_BIT_COUNT, z);
      assert false;
    }
  }

  /** The number of zero bits at the end, 32 for 0. */
  method GetSuffixZeroLength(ip: nat) returns (count: nat)
    requires ip <= IPV4_MAX_VAL
    ensures ip == 0 ==> count == IPV4_BIT_COUNT
    ensures ip != 0 ==> count < IPV4_BIT_COUNT && LowClear(ip, count) && !LowClear(ip, count + 1)
  {
    if ip == 0 {
      return IPV4_BIT_COUNT;
    }
    count := 0;
    var rest := ip;
    while rest % 2 == 0
      invariant 0 < rest == Shift(ip, count) && LowClear(ip, count)
      decreases rest
    {
      OneMoreBit(ip, count);
      count, rest := count + 1, rest / 2;
    }
    OddBit(ip, count);
    ShiftBound(ip, count);
    ThirtyTwoBits(count);
  }

  /** The logarithm, rounded down; 0 for 0. */
  method GetCidrBlockBits(cidrSize: nat) returns (count: nat)
    ensures cidrSize == 0 ==> count == 0
    ensures cidrSize > 0 ==> Pow2(count) <= cidrSize < 2 * Pow2(count)
  {
    count := 0;
    var rest := cidrSize / 2;
    ShiftNext(cidrSize, 0);
    while rest != 0
      invariant rest == Shift(cidrSize, count + 1)
      invariant cidrSize > 0 ==> Shift(cidrSize, count) > 0
      invariant cidrSize == 0 ==> count == 0
      decreases rest
    {
      ShiftNext(cidrSize, count + 1);
      count, rest := count + 1, rest / 2;
    }
    ShiftZero(cidrSize, count + 1);
    if cidrSize > 0 {
      ShiftBound(cidrSize, count);
    }
  }

  lemma {:induction false} FewerBits(n: nat, j: nat, k: nat)
    requires j <= k && LowClear(n, k)
    ensures LowClear(n, j)
    decreases k
  {
    if j < k {
      OneBitLess(n, k);
      FewerBits(n, j, k - 1);
    }
  }

  /** The logarithm of the smaller of 2^z and `remaining`. */
  lemma {:induction false} SmallerPower(bits: nat, z: nat, remaining: nat)
    requires var size := if Pow2(z) <= remaining then Pow2(z) else remaining; Pow2(bits) <= size < 2 * Pow2(bits)
    ensures bits <= z && Pow2(bits) <= remaining && (bits == z || remaining < 2 * Pow2(bits))
  {
    if bits > z {
      Pow2Monotone(z + 1, bits);
    } else if bits < z {
      Pow2Monotone(bits + 1, z);
    }
  }

  /** The logarithm of the largest block that starts at `start` and ends by `end`. */
  method BlockBits(start: nat, end: nat) returns (cidrBits: nat)
    requires 0 < start <= end <= IPV4_MAX_VAL
    ensures cidrBits < IPV4_BIT_COUNT && LowClear(start, cidrBits) && start + Pow2(cidrBits) <= end + 1
    ensures Maximal(start, cidrBits, end)
  {
    var suffixZeros := GetSuffixZeroLength(start);
    var maxCidrSize := Pow2(suffixZeros);
    var remainingCidrSize := end - start + 1;
    cidrBits := GetCidrBlockBits(if maxCidrSize <= remainingCidrSize then maxCidrSize else remainingCidrSize);
    SmallerPower(cidrBits, suffixZeros, remainingCidrSize);
    FewerBits(start, cidrBits, suffixZeros);
  }

  /** Every block has a prefix of its own and none could be twice as large. */
  predicate Tight(list: seq<Block>, end: nat) {
    forall j :: 0 <= j < |list| ==>
      1 <= list[j].prefixlen <= IPV4_BIT_COUNT && Maximal(list[j].data, Free(IPV4_BIT_COUNT, list[j]), end)
  }

  lemma {:induction false} AddBlock(list: seq<Block>, first: nat, start: nat, bits: nat, end: nat)
    requires Tiles(IPV4_BIT_COUNT, list, first, start) && Tight(list, end)
    requires bits < IPV4_BIT_COUNT && LowClear(start, bits) && Maximal(start, bits, end)
    ensures var more := list + [Block(start, IPV4_BIT_COUNT - bits)];
            Tiles(IPV4_BIT_COUNT, more, first, start + Pow2(bits)) && Tight(more, end)
  {
    var more := list + [Block(start, IPV4_BIT_COUNT - bits)];
    assert more[..|list|] == list;
  }

  /** One round: a block more, and the address after it, which is 0 after the last one. */
  method AddIp(list: seq<Block>, startIpInt: nat, endIp: nat, ghost first: nat)
    returns (more: seq<Block>, next: nat, ghost reached: nat)
    requires 0 < startIpInt <= endIp <= IPV4_MAX_VAL
    requires Tiles(IPV4_BIT_COUNT, list, first, startIpInt) && Tight(list, endIp)
    ensures startIpInt < reached <= endIp + 1 && next == if reached < UINT32_RANGE then reached else 0
    ensures Tiles(IPV4_BIT_COUNT, more, first, reached) && Tight(more, endIp)
  {
    var cidrBits := BlockBits(startIpInt, endIp);
    AddBlock(list, first, startIpInt, cidrBits, endIp);
    more := list + [Block(startIpInt, IPV4_BIT_COUNT - cidrBits)];
    reached := startIpInt + Pow2(cidrBits);
    next := (startIpInt + Pow2(cidrBits)) % UINT32_RANGE;
  }

  /** The loop ends if and only if the range starts after 0.0.0.0 and ends before 255.255.255.255, and
      then its blocks tile the range. A range up to 255.255.255.255 is tiled too, but the address
      has come back to 0, which is not past the end, and the next round shifts by 32. */
  method GetIp4AndMask(startIp: nat, endIp: nat) returns (ret: Outcome, list: seq<Block>)
    requires startIp <= IPV4_MAX_VAL && endIp <= IPV4_MAX_VAL
    ensures ret.Refused? <==> startIp > endIp
    ensures ret.Success? <==> 0 < startIp <= endIp < 0xFFFF_FFFF
    ensures ret.Success? ==> Tiles(32, list, startIp, endIp + 1)
    ensures ret.UndefinedShift? && startIp > 0 ==> Tiles(32, list, startIp, 0x1_0000_0000)
    ensures startIp > endIp || startIp == 0 ==> list == []
    ensures Tight(list, endIp)
  {
    list := [];
    if startIp > endIp {
      return Refused, list;
    }
    var startIpInt: nat := startIp;
    ghost var reached: nat := startIp;
    while startIpInt <= endIp
      invariant startIp <= reached <= endIp + 1 && startIpInt == if reached < UINT32_RANGE then reached else 0
      invariant startIp == 0 ==> reached == 0 && list == []
      invariant Tiles(IPV4_BIT_COUNT, list, startIp, reached) && Tight(list, endIp)
      decreases endIp + 1 - reached
    {
      if startIpInt == 0 {
        return UndefinedShift, list;
      }
      list, startIpInt, reached := AddIp(list, startIpInt, endIp, startIp);
    }
    ret := Success;
  }
}

/** From ranges to the rules an address finds. */
module Ip4RangeProofs {
  import opened Options
  import opened BitOps
  import opened PrefixBlocks
  import opened Ip4Ranges
  import opened Ip4RuleSpec
  import opened Ip4Proofs

  /** The insertions of one range: each block with the same rules. */
  function Insertions(list: seq<Block>, rules: set<nat>): (xs: seq<Ip4Rule>)
    ensures |xs| == |list|
    ensures forall i :: 0 <= i < |list| ==> xs[i] == Ip4Rule(list[i].data, list[i].prefixlen, rules)
  {
    if list == [] then []
    else
      var n := |list| - 1;
      Insertions(list[..n], rules) + [Ip4Rule(list[n].data, list[n].prefixlen, rules)]
  }

  /** A range from `first` up to but not including `end`, cut into blocks, with its rules. */
  datatype Range = Range(list: seq<Block>, first: nat, end: nat, rules: set<nat>)

  predicate WellCut(r: Range) {
    Tiles(IPV4_BIT_COUNT, r.list, r.first, r.end) && forall j :: 0 <= j < |r.list| ==> r.list[j].prefixlen >= 1
  }

  predicate Within(r: Range, p: nat) {
    r.first <= p < r.end
  }

  lemma {:induction false} BlockContains(b: Block, rules: set<nat>, p: nat)
    requires Aligned(IPV4_BIT_COUNT, b)
    ensures Contains(Ip4Rule(b.data, b.prefixlen, rules), p) <==> b.data <= p < b.data + Size(IPV4_BIT_COUNT, b)
  {
    AlignedMatches(IPV4_BIT_COUNT, b, p);
  }

  /** Some insertion contains the address. */
  predicate Held(xs: seq<Ip4Rule>, p: nat) {
    exists j :: 0 <= j < |xs| && Contains(xs[j], p)
  }

  lemma {:induction false} HeldConcat(xs: seq<Ip4Rule>, ys: seq<Ip4Rule>, p: nat)
    ensures Held(xs + ys, p) <==> Held(xs, p) || Held(ys, p)
  {
    var all := xs + ys;
    if Held(all, p) {
      var j :| 0 <= j < |all| && Contains(all[j], p);
      if j < |xs| {
        assert Contains(xs[j], p);
      } else {
        assert Contains(ys[j - |xs|], p);
      }
    }
    if Held(xs, p) {
      var j :| 0 <= j < |xs| && Contains(xs[j], p);
      assert Contains(all[j], p);
    }
    if Held(ys, p) {
      var j :| 0 <= j < |ys| && Contains(ys[j], p);
      assert Contains(all[|xs| + j], p);
    }
  }

  lemma {:induction false} HeldOne(x: Ip4Rule, p: nat)
    ensures Held([x], p) <==> Contains(x, p)
  {
    assert [x][0] == x;
  }

  lemma {:induction false} InsertionsSnoc(list: seq<Block>, rules: set<nat>)
    requires list != []
    ensures var n := |list| - 1;
            Insertions(list, rules) == Insertions(list[..n], rules) + [Ip4Rule(list[n].data, list[n].prefixlen, rules)]
  {
  }

  lemma {:induction false} OneRangeRules(list: seq<Block>, first: nat, end: nat, rules: set<nat>, p: nat)
    requires Tiles(IPV4_BIT_COUNT, list, first, end)
    ensures Above(Insertions(list, rules), p, IPV4_BIT_COUNT) == if first <= p < end then rules else {}
    decreases |list|
  {
    if list != [] {
      var init, last := list[..|list| - 1], list[|list| - 1];
      OneRangeRules(init, first, last.data, rules, p);
      TilesAscend(IPV4_BIT_COUNT, init, first, last.data);
      BlockContains(last, rules, p);
      InsertionsSnoc(list, rules);
      AboveLast(Insertions(init, rules), Ip4Rule(last.data, last.prefixlen, rules), p);
    }
  }

  lemma {:induction false} AboveLast(xs: seq<Ip4Rule>, x: Ip4Rule, p: nat)
    requires x.mask <= IPV4_BIT_COUNT
    ensures Above(xs + [x], p, IPV4_BIT_COUNT) == Above(xs, p, IPV4_BIT_COUNT) + if Contains(x, p) then x.rules else {}
  {
    assert (xs + [x])[..|xs|] == xs;
  }

  lemma {:induction false} OneRangeHeld(list: seq<Block>, first: nat, end: nat, rules: set<nat>, p: nat)
    requires Tiles(IPV4_BIT_COUNT, list, first, end)
    ensures Held(Insertions(list, rules), p) <==> first <= p < end
    decreases |list|
  {
    if list != [] {
      var init, last := list[..|list| - 1], list[|list| - 1];
      var x := Ip4Rule(last.data, last.prefixlen, rules);
      OneRangeHeld(init, first, last.data, rules, p);
      TilesAscend(IPV4_BIT_COUNT, init, first, last.data);
      BlockContains(last, rules, p);
      InsertionsSnoc(list, rules);
      HeldConcat(Insertions(init, rules), [x], p);
      HeldOne(x, p);
    }
  }

  function AllInsertions(rs: seq<Range>): seq<Ip4Rule> {
    if rs == [] then [] else AllInsertions(rs[..|rs| - 1]) + Insertions(rs[|rs| - 1].list, rs[|rs| - 1].rules)
  }

  /** The rules of the ranges that have the address. */
  function RulesAt(rs: seq<Range>, p: nat): set<nat> {
    if rs == [] then {}
    else
      var r := rs[|rs| - 1];
      RulesAt(rs[..|rs| - 1], p) + if Within(r, p) then r.rules else {}
  }

  lemma {:induction false} AboveConcat(xs: seq<Ip4Rule>, ys: seq<Ip4Rule>, p: nat, mask: nat)
    ensures Above(xs + ys, p, mask) == Above(xs, p, mask) + Above(ys, p, mask)
    decreases |ys|
  {
    if ys == [] {
      assert xs + ys == xs;
    } else {
      var n := |ys| - 1;
      assert (xs + ys)[..|xs + ys| - 1] == xs + ys[..n];
      AboveConcat(xs, ys[..n], p, mask);
    }
  }

  predicate Canonical(xs: seq<Ip4Rule>) {
    Legal(xs) && forall i :: 0 <= i < |xs| ==> LowClear(xs[i].addr, IPV4_MAX_PREFIXLEN - xs[i].mask)
  }

  lemma {:induction false} RangeIsCanonical(r: Range)
    requires WellCut(r)
    ensures Canonical(Insertions(r.list, r.rules))
  {
    forall j | 0 <= j < |r.list| ensures Aligned(IPV4_BIT_COUNT, r.list[j]) {
      TilesPrefix(IPV4_BIT_COUNT, r.list, r.first, r.end, j);
    }
  }

  lemma {:induction false} RangesAreCanonical(rs: seq<Range>)
    requires forall i :: 0 <= i < |rs| ==> WellCut(rs[i])
    ensures Canonical(AllInsertions(rs))
    decreases |rs|
  {
    if rs != [] {
      var init, r := rs[..|rs| - 1], rs[|rs| - 1];
      RangesAreCanonical(init);
      RangeIsCanonical(r);
      CanonicalConcat(AllInsertions(init), Insertions(r.list, r.rules));
    }
  }

  lemma {:induction false} CanonicalConcat(xs: seq<Ip4Rule>, ys: seq<Ip4Rule>)
    requires Canonical(xs) && Canonical(ys)
    ensures Canonical(xs + ys)
  {
    var all := xs + ys;
    forall i | 0 <= i < |all| ensures all[i] in xs || all[i] in ys {
      assert all[i] == if i < |xs| then xs[i] else ys[i - |xs|];
    }
  }

  lemma {:induction false} AllRangesRules(rs: seq<Range>, p: nat)
    requires forall i :: 0 <= i < |rs| ==> WellCut(rs[i])
    ensures Above(AllInsertions(rs), p, IPV4_BIT_COUNT) == RulesAt(rs, p)
    decreases |rs|
  {
    if rs != [] {
      var init, r := rs[..|rs| - 1], rs[|rs| - 1];
      AllRangesRules(init, p);
      OneRangeRules(r.list, r.first, r.end, r.rules, p);
      AboveConcat(AllInsertions(init), Insertions(r.list, r.rules), p, IPV4_BIT_COUNT);
    }
  }

  predicate SomeWithin(rs: seq<Range>, p: nat) {
    exists i :: 0 <= i < |rs| && Within(rs[i], p)
  }

  lemma {:induction false} AllRangesHeld(rs: seq<Range>, p: nat)
    requires forall i :: 0 <= i < |rs| ==> WellCut(rs[i])
    ensures Held(AllInsertions(rs), p) <==> SomeWithin(rs, p)
    decreases |rs|
  {
    if rs != [] {
      var init, r := rs[..|rs| - 1], rs[|rs| - 1];
      AllRangesHeld(init, p);
      OneRangeHeld(r.list, r.first, r.end, r.rules, p);
      HeldConcat(AllInsertions(init), Insertions(r.list, r.rules), p);
      WithinSnoc(rs, p);
    }
  }

  lemma {:induction false} WithinSnoc(rs: seq<Range>, p: nat)
    requires rs != []
    ensures SomeWithin(rs, p) <==> Within(rs[|rs| - 1], p) || SomeWithin(rs[..|rs| - 1], p)
  {
    var init := rs[..|rs| - 1];
    assert forall i :: 0 <= i < |init| ==> init[i] == rs[i];
  }

  /** For any ranges with any rules, inserted block by block: an address has a match if and only if
      some range has it, and finds exactly the rules of all the ranges that do. */
  lemma {:induction false} RangesAreFound(rs: seq<Range>, p: nat)
    requires forall i :: 0 <= i < |rs| ==> WellCut(rs[i])
    ensures var r := Lookup(InsertAll(AllInsertions(rs)), p);
            && (r.Some? <==> SomeWithin(rs, p))
            && (r.Some? ==> r.value.rules == RulesAt(rs, p))
  {
    var xs := AllInsertions(rs);
    AllRangesRules(rs, p);
    AllRangesHeld(rs, p);
    RangesAreCanonical(rs);
    CanonicalIsConsistent(xs);
    LookupFindsAll(xs, p);
    assert Held(xs, p) <==> exists j :: 0 <= j < |xs| && Contains(xs[j], p);
  }
}
