/**
 From the firewall rules' port ranges to the entries of a longest-prefix-match table: the ranges are
 merged into segments, each segment is cut into aligned power-of-two blocks, and each block becomes a
 prefix entry. Ports are kept in host order; the table sees the same bits in network order.
 */
module PortBlocks {
  import opened Arithmetic
  import opened BitOps
  import opened PrefixBlocks
  import opened PortSegmentSpec

  const PORT_MAX_MASK: nat := 16

  lemma {:induction false} SixteenBits()
    ensures Pow2(16) == UINT16_MAX + 1
  {
    Pow2Word();
  }

  /** The largest power of two whose multiple the start is and that fits into the range. */
  method LargestBlock(start: nat, end: nat) returns (blockSize: nat, ghost k: nat)
    requires start <= end <= UINT16_MAX
    ensures k < PORT_MAX_MASK && blockSize == Pow2(k) && LowClear(start, k) && blockSize <= end - start + 1
    ensures Maximal(start, k, end)
  {
    var suffixZeros, temp := 0, start;
    while temp > 0 && temp % 2 == 0
      invariant temp == Shift(start, suffixZeros) && LowClear(start, suffixZeros)
      invariant temp == 0 ==> suffixZeros == 0 && start == 0
      decreases temp
    {
      OneMoreBit(start, suffixZeros);
      suffixZeros, temp := suffixZeros + 1, temp / 2;
    }
    BelowSixteen(start, suffixZeros);
    if start != 0 {
      OddBit(start, suffixZeros);
    }
    blockSize, k := Pow2(suffixZeros), suffixZeros;
    var remaining := end - start + 1;
    while blockSize > remaining
      invariant k <= suffixZeros && blockSize == Pow2(k) && LowClear(start, k) && Maximal(start, k, end)
      decreases blockSize
    {
      OneBitLess(start, k);
      blockSize, k := blockSize / 2, k - 1;
    }
  }

  lemma {:induction false} BelowSixteen(start: nat, z: nat)
    requires start <= UINT16_MAX && (Shift(start, z) == 0 ==> z == 0)
    ensures z < PORT_MAX_MASK
  {
    if z > 0 {
      ShiftBound(start, z);
      SixteenBits();
      if z >= PORT_MAX_MASK {
        Pow2Monotone(PORT_MAX_MASK, z);
        assert false;
      }
    }
  }

  /** The prefix length of a block is 16 less the logarithm of its size. */
  method MaskOf(blockSize: nat, ghost k: nat) returns (mask: nat)
    requires k <= PORT_MAX_MASK && blockSize == Pow2(k)
    ensures mask == PORT_MAX_MASK - k
  {
    mask := PORT_MAX_MASK;
    var tempSize := blockSize;
    ghost var j: nat := k;
    while tempSize > 1
      invariant j <= k && tempSize == Pow2(j) && mask == PORT_MAX_MASK - (k - j)
      decreases tempSize
    {
      mask, tempSize, j := mask - 1, tempSize / 2, j - 1;
    }
  }

  method GetPortRangeAndMask(startPort: nat, endPort: nat) returns (ret: int, list: seq<Block>)
    requires startPort <= UINT16_MAX && endPort <= UINT16_MAX
    ensures startPort > endPort ==> ret == -1 && list == []
    ensures startPort <= endPort ==> ret == 0 && Tiles(16, list, startPort, endPort + 1)
    ensures forall j :: 0 <= j < |list| ==> Maximal(list[j].data, Free(16, list[j]), endPort)
  {
    list := [];
    if startPort > endPort {
      return -1, list;
    }
    var start: nat := startPort;
    while start <= endPort
      invariant start <= endPort + 1
      invariant Tiles(PORT_MAX_MASK, list, startPort, start)
      invariant forall j :: 0 <= j < |list| ==> Maximal(list[j].data, Free(PORT_MAX_MASK, list[j]), endPort)
      decreases endPort + 1 - start
    {
      var blockSize, k := LargestBlock(start, endPort);
      var mask := MaskOf(blockSize, k);
      assert (list + [Block(start, mask)])[..|list|] == list;
      list := list + [Block(start, mask)];
      start := start + blockSize;
    }
    ret := 0;
  }
}

module PortMaps {
  import opened Options
  import opened PrefixBlocks
  import opened PortSegmentSpec
  import opened PortSegments
  import opened PortBlocks

  datatype PortEntry = PortEntry(block: Block, rules: set<nat>)

  /** Longest prefix match; of two entries alike the later one counts. */
  function Lookup(entries: seq<PortEntry>, p: nat): Option<PortEntry> {
    if entries == [] then None
    else
      var n := |entries| - 1;
      var r := Lookup(entries[..n], p);
      if Matches(PORT_MAX_MASK, entries[n].block, p) && (r.None? || r.value.block.prefixlen <= entries[n].block.prefixlen)
      then Some(entries[n]) else r
  }

  /** The rules the table gives a port. */
  function Given(entries: seq<PortEntry>, p: nat): Option<set<nat>> {
    var r := Lookup(entries, p);
    if r.Some? then Some(r.value.rules) else None
  }

  predicate Legal(entries: seq<PortEntry>) {
    forall i :: 0 <= i < |entries| ==> entries[i].block.prefixlen <= PORT_MAX_MASK
  }

  /** What a port is given once segments before `i` and the part of segment `i` below `c` are in. */
  function Sofar(segs: seq<Segment>, i: nat, c: nat, p: nat): Option<set<nat>>
    requires i < |segs|
  {
    if segs[i].start <= p < c then Some(segs[i].rules) else At(segs[..i], p)
  }

  lemma {:induction false} AddEntry(entries: seq<PortEntry>, segs: seq<Segment>, i: nat, x: PortEntry)
    requires Ordered(segs) && i < |segs| && Aligned(PORT_MAX_MASK, x.block) && x.rules == segs[i].rules
    requires segs[i].start <= x.block.data && x.block.data + Size(PORT_MAX_MASK, x.block) <= segs[i].end + 1
    requires forall p: nat :: Given(entries, p) == Sofar(segs, i, x.block.data, p)
    ensures forall p: nat :: Given(entries + [x], p) == Sofar(segs, i, x.block.data + Size(PORT_MAX_MASK, x.block), p)
  {
    forall p: nat ensures Given(entries + [x], p) == Sofar(segs, i, x.block.data + Size(PORT_MAX_MASK, x.block), p) {
      AlignedMatches(PORT_MAX_MASK, x.block, p);
      LookupOneMore(entries, x, p);
      if Matches(PORT_MAX_MASK, x.block, p) {
        NoneBefore(segs, i, p);
      }
    }
  }

  lemma {:induction false} LookupOneMore(entries: seq<PortEntry>, x: PortEntry, p: nat)
    ensures !Matches(PORT_MAX_MASK, x.block, p) ==> Given(entries + [x], p) == Given(entries, p)
    ensures Matches(PORT_MAX_MASK, x.block, p) && Given(entries, p).None? ==> Given(entries + [x], p) == Some(x.rules)
  {
    assert (entries + [x])[..|entries|] == entries;
  }

  lemma {:induction false} NoneBefore(segs: seq<Segment>, i: nat, p: nat)
    requires Ordered(segs) && i < |segs| && segs[i].start <= p
    ensures At(segs[..i], p) == None
  {
    forall k | 0 <= k < i ensures !Covers(segs[..i][k], p) {
      assert segs[k].end < segs[i].start;
    }
    AtNone(segs[..i], p);
  }

  lemma {:induction false} SegmentDone(segs: seq<Segment>, i: nat)
    requires i < |segs|
    ensures forall p: nat {:trigger At(segs[..i + 1], p)} :: Sofar(segs, i, segs[i].end + 1, p) == At(segs[..i + 1], p)
  {
    assert segs[..i + 1][..i] == segs[..i];
  }

  /** One segment becomes the entries of its blocks. */
  method InsertBlocks(portMap: seq<PortEntry>, segs: seq<Segment>, i: nat, list: seq<Block>) returns (out: seq<PortEntry>)
    requires Legal(portMap)
    requires Ordered(segs) && i < |segs| && Tiles(PORT_MAX_MASK, list, segs[i].start, segs[i].end + 1)
    requires forall p: nat :: Given(portMap, p) == Sofar(segs, i, segs[i].start, p)
    ensures Legal(out)
    ensures forall p: nat :: Given(out, p) == Sofar(segs, i, segs[i].end + 1, p)
  {
    out := portMap;
    ghost var c: nat := segs[i].start;
    for j := 0 to |list|
      invariant Legal(out) && Tiles(PORT_MAX_MASK, list[..j], segs[i].start, c)
      invariant forall p: nat :: Given(out, p) == Sofar(segs, i, c, p)
    {
      TilesPrefix(PORT_MAX_MASK, list, segs[i].start, segs[i].end + 1, j);
      TilesAscend(PORT_MAX_MASK, list[..j], segs[i].start, c);
      if list[j].prefixlen <= PORT_MAX_MASK {
        AddEntry(out, segs, i, PortEntry(list[j], segs[i].rules));
        out := out + [PortEntry(list[j], segs[i].rules)];
      }
      c := c + Size(PORT_MAX_MASK, list[j]);
      assert list[..j + 1][..j] == list[..j];
    }
    assert list[..|list|] == list;
  }

  method OrInsertPortBitmap(segMap: seq<Segment>) returns (portMap: seq<PortEntry>)
    requires Ordered(segMap)
    ensures Legal(portMap)
    ensures forall p: nat :: Given(portMap, p) == At(segMap, p)
  {
    portMap := [];
    for i := 0 to |segMap|
      invariant Legal(portMap)
      invariant forall p: nat :: Given(portMap, p) == At(segMap[..i], p)
    {
      var ret, list := GetPortRangeAndMask(segMap[i].start, segMap[i].end);
      if ret == 0 {
        portMap := InsertBlocks(portMap, segMap, i, list);
      }
      SegmentDone(segMap, i);
    }
    assert segMap[..|segMap|] == segMap;
  }

  // ---------------------------------------------------------------------------------------
  // All the rules

  const BITMAP_BIT_COUNT: nat := 2016

  datatype PortRange = PortRange(startPort: nat, endPort: nat)

  /** One side's ports of a rule, and whether its protocol has ports at all. */
  datatype RulePorts = RulePorts(needsPort: bool, ranges: seq<PortRange>)

  function BitmapOf(n: nat): set<nat> {
    if n < BITMAP_BIT_COUNT then {n} else {}
  }

  /** Port 0 stands for no port. */
  predicate Hits(r: PortRange, p: nat) {
    r.startPort != 0 && r.startPort <= p <= r.endPort
  }

  predicate HitsOneOf(ranges: seq<PortRange>, n: nat, p: nat)
    requires n <= |ranges|
  {
    exists j :: 0 <= j < n && Hits(ranges[j], p)
  }

  predicate Applies(r: RulePorts, p: nat) {
    r.needsPort && HitsOneOf(r.ranges, |r.ranges|, p)
  }

  predicate InRange(ranges: seq<PortRange>) {
    forall j :: 0 <= j < |ranges| ==> ranges[j].startPort <= UINT16_MAX && ranges[j].endPort <= UINT16_MAX
  }

  function Added(o: Option<set<nat>>, rules: set<nat>, hit: bool): Option<set<nat>> {
    if hit then Some(Rules(o) + rules) else o
  }

  method AddPortBitmap(ports: seq<PortRange>, rules: set<nat>, portMap: SegmentBitmapMap)
    requires InRange(ports) && Ordered(portMap.segments)
    modifies portMap
    ensures Ordered(portMap.segments)
    ensures forall p: nat :: At(portMap.segments, p)
                          == Added(At(old(portMap.segments), p), rules, HitsOneOf(ports, |ports|, p))
  {
    for j := 0 to |ports|
      invariant Ordered(portMap.segments)
      invariant forall p: nat :: At(portMap.segments, p) == Added(At(old(portMap.segments), p), rules, HitsOneOf(ports, j, p))
    {
      forall p: nat ensures HitsOneOf(ports, j + 1, p) <==> HitsOneOf(ports, j, p) || Hits(ports[j], p) {
      }
      if ports[j].startPort == 0 {
        continue;
      }
      if ports[j].startPort <= ports[j].endPort {
        portMap.AddMap(ports[j].startPort, ports[j].endPort, rules);
      }
    }
  }

  /** The first `n` rules' answer for a port: none if no rule names it, else the indices of those
      that do, as far as the bitmap has bits. */
  ghost function RulesFor(rules: seq<RulePorts>, n: nat, p: nat): Option<set<nat>>
    requires n <= |rules|
  {
    if exists i :: 0 <= i < n && Applies(rules[i], p)
    then Some(set i: nat | i < n && i < BITMAP_BIT_COUNT && Applies(rules[i], p))
    else None
  }

  /** A rule below 2016 is given to a port just when its protocol has ports and one of its ranges, not
      starting at 0, has the port. */
  lemma {:induction false} RulesForMeans(rules: seq<RulePorts>, p: nat, i: nat)
    requires i < |rules|
    ensures i in Rules(RulesFor(rules, |rules|, p)) <==>
      && i < 2016 && rules[i].needsPort
      && exists j :: 0 <= j < |rules[i].ranges| && 1 <= rules[i].ranges[j].startPort <= p <= rules[i].ranges[j].endPort
  {
    var ranges := rules[i].ranges;
    if exists j :: 0 <= j < |ranges| && 1 <= ranges[j].startPort <= p <= ranges[j].endPort {
      var j :| 0 <= j < |ranges| && 1 <= ranges[j].startPort <= p <= ranges[j].endPort;
      assert Hits(ranges[j], p);
    }
  }

  lemma {:induction false} NextRule(rules: seq<RulePorts>, n: nat, p: nat)
    requires n < |rules|
    ensures RulesFor(rules, n + 1, p) == Added(RulesFor(rules, n, p), BitmapOf(n), Applies(rules[n], p))
  {
    var now := set i: nat | i < n + 1 && i < BITMAP_BIT_COUNT && Applies(rules[i], p);
    var was := set i: nat | i < n && i < BITMAP_BIT_COUNT && Applies(rules[i], p);
    if Applies(rules[n], p) {
      assert now == was + BitmapOf(n);
      if !exists i :: 0 <= i < n && Applies(rules[i], p) {
        assert was == {};
      }
    } else {
      assert now == was;
    }
  }

  /** Before the fallback entry is added, the entries give every port exactly the rules whose ranges
      have it, and nothing if none has. */
  method BuildMarkBitmap(rules: seq<RulePorts>) returns (portMap: seq<PortEntry>)
    requires forall i :: 0 <= i < |rules| ==> InRange(rules[i].ranges)
    ensures Legal(portMap)
    ensures forall p: nat :: Given(portMap, p) == RulesFor(rules, |rules|, p)
  {
    var segMap := new SegmentBitmapMap();
    for index := 0 to |rules|
      invariant Ordered(segMap.segments)
      invariant forall p: nat :: At(segMap.segments, p) == RulesFor(rules, index, p)
    {
      forall p: nat
        ensures RulesFor(rules, index + 1, p) == Added(RulesFor(rules, index, p), BitmapOf(index), Applies(rules[index], p))
      {
        NextRule(rules, index, p);
      }
      if rules[index].needsPort {
        AddPortBitmap(rules[index].ranges, BitmapOf(index), segMap);
      }
    }
    portMap := OrInsertPortBitmap(segMap.segments);
  }

  // ---------------------------------------------------------------------------------------
  // The fallback entry and the rules without ports

  const OTHER_PORT_KEY: nat := 0xFFFF

  /** A rule that names no port of this side, or whose protocol has none, applies to every port. */
  predicate PortFree(r: RulePorts) {
    r.ranges == [] || !r.needsPort
  }

  /** The rules that apply to every port, among the first `n`. */
  ghost function FreeRules(rules: seq<RulePorts>, n: nat): set<nat>
    requires n <= |rules|
  {
    set i: nat | i < n && i < BITMAP_BIT_COUNT && PortFree(rules[i])
  }

  /** lookup_map: the port itself, else the fallback key. */
  function Match(entries: seq<PortEntry>, p: nat): Option<set<nat>> {
    var r := Given(entries, p);
    if r.Some? then r else Given(entries, OTHER_PORT_KEY)
  }

  function Widened(entries: seq<PortEntry>, rules: set<nat>): (r: seq<PortEntry>)
    ensures |r| == |entries|
    ensures forall i :: 0 <= i < |entries| ==> r[i] == entries[i].(rules := entries[i].rules + rules)
  {
    if entries == [] then []
    else
      var n := |entries| - 1;
      Widened(entries[..n], rules) + [entries[n].(rules := entries[n].rules + rules)]
  }

  /** Widening every entry widens every answer. */
  lemma {:induction false} WidenedLookup(entries: seq<PortEntry>, rules: set<nat>, p: nat)
    ensures var r, w := Lookup(entries, p), Lookup(Widened(entries, rules), p);
            w == if r.Some? then Some(r.value.(rules := r.value.rules + rules)) else None
    decreases |entries|
  {
    if entries != [] {
      var n := |entries| - 1;
      assert Widened(entries, rules)[..n] == Widened(entries[..n], rules);
      WidenedLookup(entries[..n], rules, p);
    }
  }

  class BpfPortMap {
    var entries: seq<PortEntry>

    constructor (entries: seq<PortEntry>)
      ensures this.entries == entries
    {
      this.entries := entries;
    }

    /** Appends without looking for an entry of the same key. */
    method OrInsert(start: nat, mask: nat, rules: set<nat>)
      modifies this
      ensures entries == old(entries) + [PortEntry(Block(start, mask), rules)]
    {
      entries := entries + [PortEntry(Block(start, mask), rules)];
    }

    method OrForEach(rules: set<nat>)
      modifies this
      ensures entries == Widened(old(entries), rules)
    {
      for i := 0 to |entries|
        invariant |entries| == |old(entries)|
        invariant forall k :: 0 <= k < |entries| ==>
          entries[k] == if k < i then Widened(old(entries), rules)[k] else old(entries)[k]
      {
        entries := entries[i := entries[i].(rules := entries[i].rules + rules)];
      }
    }
  }

  /** An answer with more rules; no answer stays none. */
  function Wider(o: Option<set<nat>>, rules: set<nat>): Option<set<nat>> {
    if o.Some? then Some(o.value + rules) else None
  }

  method BuildNoMarkBitmap(rules: seq<RulePorts>, portMap: BpfPortMap)
    modifies portMap
    ensures forall p: nat :: Given(portMap.entries, p) == Wider(Given(old(portMap.entries), p), FreeRules(rules, |rules|))
  {
    ghost var was := portMap.entries;
    assert FreeRules(rules, 0) == {};
    forall p: nat ensures Wider(Given(was, p), {}) == Given(was, p) {
      WiderByNone(Given(was, p));
    }
    for index := 0 to |rules|
      invariant forall p: nat :: Given(portMap.entries, p) == Wider(Given(was, p), FreeRules(rules, index))
    {
      ghost var before := portMap.entries;
      FreeRulesNext(rules, index);
      if rules[index].ranges == [] || !rules[index].needsPort {
        portMap.OrForEach(BitmapOf(index));
        forall p: nat ensures Given(portMap.entries, p) == Wider(Given(was, p), FreeRules(rules, index + 1)) {
          WidenedLookup(before, BitmapOf(index), p);
          WiderTwice(Given(was, p), FreeRules(rules, index), BitmapOf(index));
        }
      }
    }
  }

  lemma {:induction false} WiderByNone(o: Option<set<nat>>)
    ensures Wider(o, {}) == o
  {
    if o.Some? {
      assert o.value + {} == o.value;
    }
  }

  lemma {:induction false} WiderTwice(o: Option<set<nat>>, a: set<nat>, b: set<nat>)
    ensures Wider(Wider(o, a), b) == Wider(o, a + b)
  {
    if o.Some? {
      assert o.value + a + b == o.value + (a + b);
    }
  }

  lemma {:induction false} FreeRulesNext(rules: seq<RulePorts>, n: nat)
    requires n < |rules|
    ensures FreeRules(rules, n + 1) == if PortFree(rules[n]) then FreeRules(rules, n) + BitmapOf(n) else FreeRules(rules, n)
  {
  }

  /** The fallback entry takes the last port for itself and changes no other. */
  lemma {:induction false} FallbackEntry(entries: seq<PortEntry>, p: nat)
    requires Legal(entries)
    ensures Given(entries + [PortEntry(Block(OTHER_PORT_KEY, PORT_MAX_MASK), {})], p)
         == if p == OTHER_PORT_KEY then Some({}) else Given(entries, p)
  {
    var x := PortEntry(Block(OTHER_PORT_KEY, PORT_MAX_MASK), {});
    assert (entries + [x])[..|entries|] == entries;
    assert Free(PORT_MAX_MASK, x.block) == 0 && Size(PORT_MAX_MASK, x.block) == 1;
    AlignedMatches(PORT_MAX_MASK, x.block, p);
    LookupIsLegal(entries, p);
  }

  lemma {:induction false} LookupIsLegal(entries: seq<PortEntry>, p: nat)
    requires Legal(entries)
    ensures Lookup(entries, p).Some? ==> Lookup(entries, p).value.block.prefixlen <= PORT_MAX_MASK
    decreases |entries|
  {
    if entries != [] {
      LookupIsLegal(entries[..|entries| - 1], p);
    }
  }

  /** What a packet on port `p` finds. */
  ghost function Found(rules: seq<RulePorts>, p: nat): set<nat> {
    (if p == OTHER_PORT_KEY then {} else Rules(RulesFor(rules, |rules|, p))) + FreeRules(rules, |rules|)
  }

  /** What it should find. */
  ghost function Wanted(rules: seq<RulePorts>, p: nat): set<nat> {
    set i: nat | i < |rules| && i < BITMAP_BIT_COUNT && (Applies(rules[i], p) || PortFree(rules[i]))
  }

  /** The whole port table: marked rules, then the fallback entry, then the rules without ports. */
  method BuildBitmapMap(rules: seq<RulePorts>) returns (portMap: BpfPortMap)
    requires forall i :: 0 <= i < |rules| ==> InRange(rules[i].ranges)
    ensures fresh(portMap)
    ensures forall p: nat :: Match(portMap.entries, p) == Some(Found(rules, p))
  {
    var marked := BuildMarkBitmap(rules);
    portMap := new BpfPortMap(marked);
    portMap.OrInsert(OTHER_PORT_KEY, PORT_MAX_MASK, {});
    ghost var full := portMap.entries;
    BuildNoMarkBitmap(rules, portMap);
    forall p: nat ensures Match(portMap.entries, p) == Some(Found(rules, p)) {
      FallbackEntry(marked, p);
      FallbackEntry(marked, OTHER_PORT_KEY);
      assert Given(portMap.entries, p) == Wider(Given(full, p), FreeRules(rules, |rules|));
      assert Given(portMap.entries, OTHER_PORT_KEY) == Wider(Given(full, OTHER_PORT_KEY), FreeRules(rules, |rules|));
    }
  }

  /** Said on the rules' fields: those with a usable range that has the port, unless it is 65535, and
      those that name no port of this side or whose protocol has none. */
  lemma {:induction false} FoundMeans(rules: seq<RulePorts>, p: nat, i: nat)
    requires i < |rules|
    ensures i in Found(rules, p) <==>
      && i < 2016
      && (|| rules[i].ranges == []
          || !rules[i].needsPort
          || (p != 65535
              && exists j :: 0 <= j < |rules[i].ranges| && 1 <= rules[i].ranges[j].startPort <= p <= rules[i].ranges[j].endPort))
  {
    RulesForMeans(rules, p, i);
  }

  /** A packet finds exactly the rules that apply to its port, unless it is the last port and some
      rule names it: the fallback entry hides that rule. */
  lemma {:induction false} FoundIsWantedIff(rules: seq<RulePorts>, p: nat)
    ensures Found(rules, p) == Wanted(rules, p)
       <==> p != OTHER_PORT_KEY || forall i :: 0 <= i < |rules| && i < BITMAP_BIT_COUNT ==> !Applies(rules[i], p)
  {
    var marked := set i: nat | i < |rules| && i < BITMAP_BIT_COUNT && Applies(rules[i], p);
    assert Wanted(rules, p) == marked + FreeRules(rules, |rules|);
    assert Rules(RulesFor(rules, |rules|, p)) == marked;
    if p == OTHER_PORT_KEY {
      forall i | 0 <= i < |rules| && i < BITMAP_BIT_COUNT && Applies(rules[i], p)
        ensures i in Wanted(rules, p) && i !in Found(rules, p)
      {
      }
    }
  }

  /** A rule for the ports from 60000 on is found on every one of them but the last. */
  lemma {:induction false} LastPortIsMissed()
    ensures var rules := [RulePorts(true, [PortRange(60000, 65535)])];
            && Found(rules, 65534) == Wanted(rules, 65534) == {0}
            && Found(rules, 65535) == {} && Wanted(rules, 65535) == {0}
  {
    var range := [PortRange(60000, 65535)];
    var rules := [RulePorts(true, range)];
    assert Hits(range[0], 65534) && Hits(range[0], 65535);
    assert HitsOneOf(range, 1, 65534) && HitsOneOf(range, 1, 65535);
    assert Applies(rules[0], 65534) && Applies(rules[0], 65535) && !PortFree(rules[0]);
    FoundIsWantedIff(rules, 65534);
  }
}
