/**
 The firewall's IPv4 rule table. Each entry is a prefix with the set of rules (the set bits of its
 bitmap) of every inserted prefix that contains it, so that a longest-prefix match finds them all.
 */
module Ip4RuleSpec {
  import opened Options
  import opened BitOps

  const IPV4_MAX_PREFIXLEN: nat := 32

  /** An insertion, and also an entry of the table. */
  datatype Ip4Rule = Ip4Rule(addr: nat, mask: nat, rules: set<nat>)

  /** The first `mask` bits of an address: what `addr & (0xFFFFFFFF << (32 - mask))` keeps. */
  function Network(addr: nat, mask: nat): nat {
    Shift(addr, if mask <= IPV4_MAX_PREFIXLEN then IPV4_MAX_PREFIXLEN - mask else 0)
  }

  predicate Contains(x: Ip4Rule, p: nat) {
    Network(p, x.mask) == Network(x.addr, x.mask)
  }

  predicate SameKey(x: Ip4Rule, y: Ip4Rule) {
    x.addr == y.addr && x.mask == y.mask
  }

  /** Agreeing on a long prefix is agreeing on every shorter one. */
  lemma {:induction false} ShorterAgrees(p: nat, q: nat, short: nat, long: nat)
    requires short <= long <= IPV4_MAX_PREFIXLEN && Network(p, long) == Network(q, long)
    ensures Network(p, short) == Network(q, short)
  {
    var j, k := IPV4_MAX_PREFIXLEN - long, long - short;
    ShiftAdd(p, j, k);
    ShiftAdd(q, j, k);
    assert j + k == IPV4_MAX_PREFIXLEN - short;
  }

  /** All rules of the insertions that contain the prefix. */
  function Above(xs: seq<Ip4Rule>, addr: nat, mask: nat): set<nat> {
    if xs == [] then {}
    else
      var x := xs[|xs| - 1];
      Above(xs[..|xs| - 1], addr, mask) + if x.mask <= mask && Contains(x, addr) then x.rules else {}
  }

  lemma {:induction false} AboveHas(xs: seq<Ip4Rule>, addr: nat, mask: nat, j: nat)
    requires j < |xs| && xs[j].mask <= mask && Contains(xs[j], addr)
    ensures xs[j].rules <= Above(xs, addr, mask)
    decreases |xs|
  {
    if j < |xs| - 1 {
      AboveHas(xs[..|xs| - 1], addr, mask, j);
    }
  }

  lemma {:induction false} AboveFrom(xs: seq<Ip4Rule>, addr: nat, mask: nat, b: nat) returns (j: nat)
    requires b in Above(xs, addr, mask)
    ensures j < |xs| && xs[j].mask <= mask && Contains(xs[j], addr) && b in xs[j].rules
    decreases |xs|
  {
    var n := |xs| - 1;
    if xs[n].mask <= mask && Contains(xs[n], addr) && b in xs[n].rules {
      j := n;
    } else {
      j := AboveFrom(xs[..n], addr, mask, b);
    }
  }

  /** An insertion whose rules an entry has: one of its own key, or a strictly shorter prefix that
      contains it. */
  predicate Feeds(x: Ip4Rule, addr: nat, mask: nat) {
    (x.addr == addr && x.mask == mask) || (x.mask < mask && Contains(x, addr))
  }

  function Own(xs: seq<Ip4Rule>, addr: nat, mask: nat): set<nat> {
    if xs == [] then {}
    else
      var x := xs[|xs| - 1];
      Own(xs[..|xs| - 1], addr, mask) + if Feeds(x, addr, mask) then x.rules else {}
  }

  lemma {:induction false} OwnHas(xs: seq<Ip4Rule>, addr: nat, mask: nat, j: nat)
    requires j < |xs| && Feeds(xs[j], addr, mask)
    ensures xs[j].rules <= Own(xs, addr, mask)
    decreases |xs|
  {
    if j < |xs| - 1 {
      OwnHas(xs[..|xs| - 1], addr, mask, j);
    }
  }

  lemma {:induction false} OwnFrom(xs: seq<Ip4Rule>, addr: nat, mask: nat, b: nat) returns (j: nat)
    requires b in Own(xs, addr, mask)
    ensures j < |xs| && Feeds(xs[j], addr, mask) && b in xs[j].rules
    decreases |xs|
  {
    var n := |xs| - 1;
    if Feeds(xs[n], addr, mask) && b in xs[n].rules {
      j := n;
    } else {
      j := OwnFrom(xs[..n], addr, mask, b);
    }
  }

  /** Whatever feeds a shorter prefix feeds every longer one inside it. */
  lemma {:induction false} OwnGrows(xs: seq<Ip4Rule>, short: Ip4Rule, addr: nat, mask: nat)
    requires short.mask < mask <= IPV4_MAX_PREFIXLEN && Contains(short, addr)
    ensures Own(xs, short.addr, short.mask) <= Own(xs, addr, mask)
  {
    forall b | b in Own(xs, short.addr, short.mask) ensures b in Own(xs, addr, mask) {
      var j := OwnFrom(xs, short.addr, short.mask, b);
      ShorterAgrees(short.addr, addr, xs[j].mask, short.mask);
      OwnHas(xs, addr, mask, j);
    }
  }

  // ---------------------------------------------------------------------------------------
  // One insertion, as the loop over the entries computes it

  /** The copy of the bitmap after `n` entries: it collects those of the entries containing it. */
  function Copy(table: seq<Ip4Rule>, n: nat, x: Ip4Rule): set<nat>
    requires n <= |table|
  {
    if n == 0 then x.rules
    else
      var e := table[n - 1];
      Copy(table, n - 1, x) + if e.mask < x.mask && Contains(e, x.addr) then e.rules else {}
  }

  predicate Receives(e: Ip4Rule, x: Ip4Rule) {
    SameKey(e, x) || (x.mask < e.mask && Contains(x, e.addr))
  }

  /** The entry `i` afterwards. */
  function After(table: seq<Ip4Rule>, i: nat, x: Ip4Rule): Ip4Rule
    requires i < |table|
  {
    if Receives(table[i], x) then table[i].(rules := table[i].rules + Copy(table, i, x)) else table[i]
  }

  function Updated(table: seq<Ip4Rule>, n: nat, x: Ip4Rule): (r: seq<Ip4Rule>)
    requires n <= |table|
    ensures |r| == n && forall i :: 0 <= i < n ==> r[i] == After(table, i, x)
  {
    if n == 0 then [] else Updated(table, n - 1, x) + [After(table, n - 1, x)]
  }

  predicate HasKey(table: seq<Ip4Rule>, n: nat, x: Ip4Rule)
    requires n <= |table|
  {
    exists i :: 0 <= i < n && SameKey(table[i], x)
  }

  function Inserted(table: seq<Ip4Rule>, x: Ip4Rule): seq<Ip4Rule> {
    var n := |table|;
    Updated(table, n, x) + if HasKey(table, n, x) then [] else [Ip4Rule(x.addr, x.mask, Copy(table, n, x))]
  }

  function InsertAll(xs: seq<Ip4Rule>): seq<Ip4Rule> {
    if xs == [] then [] else Inserted(InsertAll(xs[..|xs| - 1]), xs[|xs| - 1])
  }

  /** Longest prefix match; of two entries alike the later one counts. */
  function Lookup(table: seq<Ip4Rule>, p: nat): Option<Ip4Rule> {
    if table == [] then None
    else
      var e := table[|table| - 1];
      var r := Lookup(table[..|table| - 1], p);
      if Contains(e, p) && (r.None? || r.value.mask <= e.mask) then Some(e) else r
  }

  const OTHER_IP4_KEY: nat := 0xFFFF_FFFF
  const FALLBACK := Ip4Rule(OTHER_IP4_KEY, IPV4_MAX_PREFIXLEN, {})

  /** Rules that apply to every address go into every entry. */
  function Widened(table: seq<Ip4Rule>, rules: set<nat>): (r: seq<Ip4Rule>)
    ensures |r| == |table|
    ensures forall i :: 0 <= i < |table| ==> r[i] == table[i].(rules := table[i].rules + rules)
  {
    if table == [] then []
    else
      var n := |table| - 1;
      Widened(table[..n], rules) + [table[n].(rules := table[n].rules + rules)]
  }

  function Union(sets: seq<set<nat>>): set<nat> {
    if sets == [] then {} else Union(sets[..|sets| - 1]) + sets[|sets| - 1]
  }

  /** lookup_map: the address itself, else the fallback key. */
  function Match(table: seq<Ip4Rule>, p: nat): Option<set<nat>> {
    var r := Lookup(table, p);
    var q := if r.Some? then r else Lookup(table, OTHER_IP4_KEY);
    if q.Some? then Some(q.value.rules) else None
  }

  /** What a packet of address `p` finds. */
  function Found(xs: seq<Ip4Rule>, free: set<nat>, p: nat): Option<set<nat>> {
    Match(Widened(InsertAll(xs + [FALLBACK]), free), p)
  }

  /** The rules without addresses are those of some of the sets. */
  lemma {:induction false} UnionIs(sets: seq<set<nat>>)
    ensures forall b :: b in Union(sets) <==> exists i :: 0 <= i < |sets| && b in sets[i]
    decreases |sets|
  {
    if sets != [] {
      var n := |sets| - 1;
      UnionIs(sets[..n]);
      forall b ensures b in Union(sets) <==> exists i :: 0 <= i < |sets| && b in sets[i] {
        assert forall i :: 0 <= i < n ==> sets[..n][i] == sets[i];
      }
    }
  }
}

module Ip4Rules {
  import opened Ip4RuleSpec

  /** The three cases of the loop for one entry: same key, new prefix shorter, new prefix longer. */
  method Visit(entry: Ip4Rule, addr: nat, mask: nat, bitmapCopy: set<nat>, ghost x: Ip4Rule)
    returns (e: Ip4Rule, copy: set<nat>, same: bool)
    requires x.addr == addr && x.mask == mask
    ensures e == if Receives(entry, x) then entry.(rules := entry.rules + bitmapCopy) else entry
    ensures copy == bitmapCopy + if entry.mask < mask && Contains(entry, addr) then entry.rules else {}
    ensures same <==> SameKey(entry, x)
  {
    e, copy, same := entry, bitmapCopy, false;
    if e.addr == addr && e.mask == mask {
      e := e.(rules := e.rules + bitmapCopy);
      same := true;
    }
    if mask < e.mask && Network(e.addr, mask) == Network(addr, mask) {
      e := e.(rules := e.rules + bitmapCopy);
    }
    if mask > e.mask && Network(addr, e.mask) == Network(e.addr, e.mask) {
      copy := copy + e.rules;
    }
  }

  ghost predicate Halfway(was: seq<Ip4Rule>, i: nat, x: Ip4Rule, table: seq<Ip4Rule>, copy: set<nat>, missing: bool) {
    && i <= |was| && table == Updated(was, i, x) + was[i..]
    && copy == Copy(was, i, x) && (missing <==> !HasKey(was, i, x))
  }

  lemma {:induction false} OneFurther(was: seq<Ip4Rule>, i: nat, x: Ip4Rule, table: seq<Ip4Rule>, copy: set<nat>,
                                      missing: bool, e: Ip4Rule, copy': set<nat>, same: bool)
    requires i < |was| && Halfway(was, i, x, table, copy, missing)
    requires e == if Receives(was[i], x) then was[i].(rules := was[i].rules + copy) else was[i]
    requires copy' == copy + if was[i].mask < x.mask && Contains(was[i], x.addr) then was[i].rules else {}
    requires same <==> SameKey(was[i], x)
    ensures Halfway(was, i + 1, x, table[i := e], copy', missing && !same)
    ensures |table| == |was| && (i + 1 < |was| ==> table[i := e][i + 1] == was[i + 1])
  {
    Visited(was, i, x, table);
  }

  lemma {:induction false} Visited(was: seq<Ip4Rule>, i: nat, x: Ip4Rule, table: seq<Ip4Rule>)
    requires i < |was| && table == Updated(was, i, x) + was[i..]
    ensures table[i] == was[i]
    ensures table[i := After(was, i, x)] == Updated(was, i + 1, x) + was[i + 1..]
    ensures HasKey(was, i + 1, x) <==> HasKey(was, i, x) || SameKey(was[i], x)
  {
  }

  lemma {:induction false} AllTheWay(was: seq<Ip4Rule>, x: Ip4Rule, table: seq<Ip4Rule>, copy: set<nat>, missing: bool)
    requires Halfway(was, |was|, x, table, copy, missing)
    ensures Inserted(was, x) == if missing then table + [Ip4Rule(x.addr, x.mask, copy)] else table
  {
    assert was[|was|..] == [];
  }

  class Ip4RuleMap {
    var table: seq<Ip4Rule>

    constructor ()
      ensures table == []
    {
      table := [];
    }

    method OrInsert(addr: nat, mask: nat, rules: set<nat>)
      requires 1 <= mask <= IPV4_MAX_PREFIXLEN
      modifies this
      ensures table == Inserted(old(table), Ip4Rule(addr, mask, rules))
    {
      ghost var x := Ip4Rule(addr, mask, rules);
      ghost var was := table;
      var shouldInsert, bitmapCopy := true, rules;
      for i := 0 to |table|
        invariant |table| == |was| && (i < |was| ==> table[i] == was[i])
        invariant Halfway(was, i, x, table, bitmapCopy, shouldInsert)
      {
        var e, copy, same := Visit(table[i], addr, mask, bitmapCopy, x);
        OneFurther(was, i, x, table, bitmapCopy, shouldInsert, e, copy, same);
        table := table[i := e];
        bitmapCopy := copy;
        if same {
          shouldInsert := false;
        }
      }
      AllTheWay(was, x, table, bitmapCopy, shouldInsert);
      if shouldInsert {
        table := table + [Ip4Rule(addr, mask, bitmapCopy)];
      }
    }

    method OrForEach(rules: set<nat>)
      modifies this
      ensures table == Widened(old(table), rules)
    {
      for i := 0 to |table|
        invariant |table| == |old(table)|
        invariant forall k :: 0 <= k < |table| ==> table[k] == if k < i then Widened(old(table), rules)[k] else old(table)[k]
      {
        table := table[i := table[i].(rules := table[i].rules + rules)];
      }
    }
  }

  /** One side's address table: the prefixes of the rules, in order, then the fallback entry, then
      the rules without addresses. */
  method BuildBitmapMap(xs: seq<Ip4Rule>, free: seq<set<nat>>) returns (ip4Map: Ip4RuleMap)
    requires forall i :: 0 <= i < |xs| ==> 1 <= xs[i].mask <= IPV4_MAX_PREFIXLEN
    ensures fresh(ip4Map) && ip4Map.table == Widened(InsertAll(xs + [FALLBACK]), Union(free))
    ensures forall p :: Match(ip4Map.table, p) == Found(xs, Union(free), p)
    ensures forall b :: b in Union(free) <==> exists i :: 0 <= i < |free| && b in free[i]
  {
    ip4Map := new Ip4RuleMap();
    for i := 0 to |xs|
      invariant fresh(ip4Map) && ip4Map.table == InsertAll(xs[..i])
    {
      assert xs[..i + 1][..i] == xs[..i];
      ip4Map.OrInsert(xs[i].addr, xs[i].mask, xs[i].rules);
    }
    assert xs[..|xs|] == xs && (xs + [FALLBACK])[..|xs|] == xs;
    ip4Map.OrInsert(OTHER_IP4_KEY, IPV4_MAX_PREFIXLEN, {});
    AddFree(ip4Map, free);
    UnionIs(free);
  }

  method AddFree(ip4Map: Ip4RuleMap, free: seq<set<nat>>)
    modifies ip4Map
    ensures ip4Map.table == Widened(old(ip4Map.table), Union(free))
  {
    ghost var full := ip4Map.table;
    assert free[..0] == [];
    WidenedByNone(full);
    for i := 0 to |free|
      invariant ip4Map.table == Widened(full, Union(free[..i]))
    {
      assert free[..i + 1][..i] == free[..i];
      WidenedTwice(full, Union(free[..i]), free[i]);
      ip4Map.OrForEach(free[i]);
    }
    assert free[..|free|] == free;
  }

  lemma {:induction false} WidenedByNone(table: seq<Ip4Rule>)
    ensures Widened(table, {}) == table
  {
    forall i | 0 <= i < |table| ensures table[i].(rules := table[i].rules + {}) == table[i] {
      assert table[i].rules + {} == table[i].rules;
    }
  }

  lemma {:induction false} WidenedTwice(table: seq<Ip4Rule>, a: set<nat>, b: set<nat>)
    ensures Widened(Widened(table, a), b) == Widened(table, a + b)
  {
    forall i | 0 <= i < |table| ensures table[i].rules + a + b == table[i].rules + (a + b) {
    }
  }
}

module Ip4Proofs {
  import opened Options
  import opened BitOps
  import opened Ip4RuleSpec

  predicate Legal(xs: seq<Ip4Rule>) {
    forall i :: 0 <= i < |xs| ==> 1 <= xs[i].mask <= IPV4_MAX_PREFIXLEN
  }

  /** The entries' keys are those inserted. */
  predicate Keyed(table: seq<Ip4Rule>, xs: seq<Ip4Rule>) {
    && (forall i {:trigger HasKey(xs, |xs|, table[i])} :: 0 <= i < |table| ==> HasKey(xs, |xs|, table[i]))
    && (forall j {:trigger HasKey(table, |table|, xs[j])} :: 0 <= j < |xs| ==> HasKey(table, |table|, xs[j]))
  }

  lemma {:induction false} EntryKeyKept(table: seq<Ip4Rule>, xs: seq<Ip4Rule>, x: Ip4Rule, i: nat)
    requires Keyed(table, xs) && i < |Inserted(table, x)|
    ensures HasKey(xs + [x], |xs + [x]|, Inserted(table, x)[i])
  {
    var t, all := Inserted(table, x), xs + [x];
    if i < |table| {
      assert HasKey(xs, |xs|, table[i]);
      var j :| 0 <= j < |xs| && SameKey(xs[j], table[i]);
      assert SameKey(all[j], t[i]);
    } else {
      assert SameKey(all[|xs|], t[i]);
    }
  }

  lemma {:induction false} InsertedKeyKept(table: seq<Ip4Rule>, xs: seq<Ip4Rule>, x: Ip4Rule, j: nat)
    requires Keyed(table, xs) && j <= |xs|
    ensures HasKey(Inserted(table, x), |Inserted(table, x)|, (xs + [x])[j])
  {
    var t, y := Inserted(table, x), (xs + [x])[j];
    assert j < |xs| ==> HasKey(table, |table|, xs[j]);
    if HasKey(table, |table|, y) {
      var i :| 0 <= i < |table| && SameKey(table[i], y);
      assert SameKey(t[i], y);
    } else {
      assert j == |xs|;
      assert SameKey(t[|table|], y);
    }
  }

  lemma {:induction false} KeysKept(table: seq<Ip4Rule>, xs: seq<Ip4Rule>, x: Ip4Rule)
    requires Keyed(table, xs)
    ensures Keyed(Inserted(table, x), xs + [x])
  {
    var t, all := Inserted(table, x), xs + [x];
    forall i | 0 <= i < |t| ensures HasKey(all, |all|, t[i]) {
      EntryKeyKept(table, xs, x, i);
    }
    forall j | 0 <= j < |all| ensures HasKey(t, |t|, all[j]) {
      InsertedKeyKept(table, xs, x, j);
    }
  }

  lemma {:induction false} AllKeyed(xs: seq<Ip4Rule>)
    ensures Keyed(InsertAll(xs), xs)
    decreases |xs|
  {
    if xs != [] {
      var init, x := xs[..|xs| - 1], xs[|xs| - 1];
      var table := InsertAll(init);
      AllKeyed(init);
      KeysKept(table, init, x);
      assert init + [x] == xs;
    }
  }

  // ---------------------------------------------------------------------------------------
  // What every entry holds, after any insertions in any order

  predicate Described(table: seq<Ip4Rule>, xs: seq<Ip4Rule>) {
    forall i :: 0 <= i < |table| ==> table[i].rules == Own(xs, table[i].addr, table[i].mask)
  }

  lemma {:induction false} CopyHas(table: seq<Ip4Rule>, n: nat, x: Ip4Rule, k: nat)
    requires n <= |table| && k < n && table[k].mask < x.mask && Contains(table[k], x.addr)
    ensures table[k].rules <= Copy(table, n, x)
  {
    if k < n - 1 {
      CopyHas(table, n - 1, x, k);
    }
  }

  /** The copy never collects more than what feeds the new prefix. */
  lemma {:induction false} CopyBound(table: seq<Ip4Rule>, n: nat, x: Ip4Rule, xs: seq<Ip4Rule>)
    requires n <= |table| && Described(table, xs) && x.mask <= IPV4_MAX_PREFIXLEN
    ensures x.rules <= Copy(table, n, x) <= Own(xs, x.addr, x.mask) + x.rules
  {
    if n > 0 {
      CopyBound(table, n - 1, x, xs);
      var e := table[n - 1];
      if e.mask < x.mask && Contains(e, x.addr) {
        OwnGrows(xs, e, x.addr, x.mask);
      }
    }
  }

  lemma {:induction false} OwnSnoc(xs: seq<Ip4Rule>, x: Ip4Rule, addr: nat, mask: nat)
    ensures Own(xs + [x], addr, mask) == Own(xs, addr, mask) + if Feeds(x, addr, mask) then x.rules else {}
  {
    assert (xs + [x])[..|xs|] == xs;
  }

  lemma {:induction false} EntryKeeps(table: seq<Ip4Rule>, xs: seq<Ip4Rule>, x: Ip4Rule, i: nat)
    requires Described(table, xs) && i < |table| && table[i].mask <= IPV4_MAX_PREFIXLEN
    ensures After(table, i, x).rules == Own(xs + [x], table[i].addr, table[i].mask)
  {
    var e := table[i];
    OwnSnoc(xs, x, e.addr, e.mask);
    if Receives(e, x) {
      CopyBound(table, i, x, xs);
      if x.mask < e.mask {
        OwnGrows(xs, x, e.addr, e.mask);
      }
    }
  }

  lemma {:induction false} NewEntry(table: seq<Ip4Rule>, xs: seq<Ip4Rule>, x: Ip4Rule)
    requires Described(table, xs) && Keyed(table, xs) && x.mask <= IPV4_MAX_PREFIXLEN && !HasKey(table, |table|, x)
    ensures Copy(table, |table|, x) == Own(xs + [x], x.addr, x.mask)
  {
    OwnSnoc(xs, x, x.addr, x.mask);
    CopyBound(table, |table|, x, xs);
    forall b | b in Own(xs, x.addr, x.mask) ensures b in Copy(table, |table|, x) {
      var j := OwnFrom(xs, x.addr, x.mask, b);
      assert HasKey(table, |table|, xs[j]);
      var k :| 0 <= k < |table| && SameKey(table[k], xs[j]);
      assert !SameKey(table[k], x);
      CopyHas(table, |table|, x, k);
      OwnHas(xs, xs[j].addr, xs[j].mask, j);
    }
  }

  lemma {:induction false} EntryMask(table: seq<Ip4Rule>, xs: seq<Ip4Rule>, i: nat)
    requires Keyed(table, xs) && Legal(xs) && i < |table|
    ensures table[i].mask <= IPV4_MAX_PREFIXLEN
  {
    assert HasKey(xs, |xs|, table[i]);
    var j :| 0 <= j < |xs| && SameKey(xs[j], table[i]);
  }

  lemma {:induction false} InsertKeeps(table: seq<Ip4Rule>, xs: seq<Ip4Rule>, x: Ip4Rule)
    requires Described(table, xs) && Keyed(table, xs) && Legal(xs) && x.mask <= IPV4_MAX_PREFIXLEN
    ensures Described(Inserted(table, x), xs + [x])
  {
    var t := Inserted(table, x);
    forall i | 0 <= i < |t| ensures t[i].rules == Own(xs + [x], t[i].addr, t[i].mask) {
      if i < |table| {
        EntryMask(table, xs, i);
        EntryKeeps(table, xs, x, i);
      } else {
        NewEntry(table, xs, x);
      }
    }
  }

  /** After any sequence of insertions every entry has exactly the rules inserted under its own key
      and those of the strictly shorter prefixes that contain it. */
  lemma {:induction false} TableIs(xs: seq<Ip4Rule>)
    requires Legal(xs)
    ensures Described(InsertAll(xs), xs)
    decreases |xs|
  {
    if xs != [] {
      var init, x := xs[..|xs| - 1], xs[|xs| - 1];
      TableIs(init);
      AllKeyed(init);
      InsertKeeps(InsertAll(init), init, x);
      assert init + [x] == xs;
    }
  }

  // ---------------------------------------------------------------------------------------
  // What a longest match finds

  lemma {:induction false} LookupIsLongest(table: seq<Ip4Rule>, p: nat) returns (i: nat)
    ensures Lookup(table, p).None? ==> forall k :: 0 <= k < |table| ==> !Contains(table[k], p)
    ensures Lookup(table, p).Some? ==>
      && i < |table| && Lookup(table, p).value == table[i] && Contains(table[i], p)
      && forall k :: 0 <= k < |table| && Contains(table[k], p) ==> table[k].mask <= table[i].mask
    decreases |table|
  {
    i := 0;
    if table != [] {
      var n := |table| - 1;
      var j := LookupIsLongest(table[..n], p);
      i := if Lookup(table, p) == Lookup(table[..n], p) && Lookup(table[..n], p).Some? then j else n;
    }
  }

  /** The matched entry is an inserted prefix that contains the address, and a longest such. */
  predicate LongestFor(xs: seq<Ip4Rule>, p: nat, e: Ip4Rule) {
    && HasKey(xs, |xs|, e) && Contains(e, p)
    && forall j :: 0 <= j < |xs| && Contains(xs[j], p) ==> xs[j].mask <= e.mask
  }

  lemma {:induction false} MatchedEntry(xs: seq<Ip4Rule>, p: nat)
    requires Legal(xs)
    ensures var r := Lookup(InsertAll(xs), p);
            && (r.Some? <==> exists j :: 0 <= j < |xs| && Contains(xs[j], p))
            && (r.Some? ==> LongestFor(xs, p, r.value) && r.value.rules == Own(xs, r.value.addr, r.value.mask))
  {
    var table := InsertAll(xs);
    var i := LookupIsLongest(table, p);
    TableIs(xs);
    AllKeyed(xs);
    forall j | 0 <= j < |xs| && Contains(xs[j], p)
      ensures Lookup(table, p).Some? && xs[j].mask <= table[i].mask
    {
      assert HasKey(table, |table|, xs[j]);
      var k :| 0 <= k < |table| && SameKey(table[k], xs[j]);
      assert Contains(table[k], p);
    }
    if Lookup(table, p).Some? {
      assert HasKey(xs, |xs|, table[i]);
      var j :| 0 <= j < |xs| && SameKey(xs[j], table[i]);
      assert Contains(xs[j], p);
    }
  }

  // Which entry matches is told by the insertions alone: the table's keys are those inserted, in the
  // order of their first insertion, and of two keys of one network the later one matches.

  /** The keys in order of first insertion, without any rules. */
  function FirstKeys(xs: seq<Ip4Rule>): seq<Ip4Rule> {
    if xs == [] then []
    else
      var keys, x := FirstKeys(xs[..|xs| - 1]), xs[|xs| - 1];
      if HasKey(keys, |keys|, x) then keys else keys + [Ip4Rule(x.addr, x.mask, {})]
  }

  /** The prefix that an address matches. */
  function Winner(xs: seq<Ip4Rule>, p: nat): Option<Ip4Rule> {
    Lookup(FirstKeys(xs), p)
  }

  predicate SameKeys(t: seq<Ip4Rule>, u: seq<Ip4Rule>) {
    |t| == |u| && forall i :: 0 <= i < |t| ==> SameKey(t[i], u[i])
  }

  lemma {:induction false} HasKeyAlike(t: seq<Ip4Rule>, u: seq<Ip4Rule>, x: Ip4Rule)
    requires SameKeys(t, u) && HasKey(t, |t|, x)
    ensures HasKey(u, |u|, x)
  {
    var i :| 0 <= i < |t| && SameKey(t[i], x);
    assert SameKey(u[i], x);
  }

  lemma {:induction false} SameKeysStep(t: seq<Ip4Rule>, u: seq<Ip4Rule>, x: Ip4Rule)
    requires SameKeys(t, u)
    ensures SameKeys(Inserted(t, x), if HasKey(u, |u|, x) then u else u + [Ip4Rule(x.addr, x.mask, {})])
  {
    if HasKey(t, |t|, x) {
      HasKeyAlike(t, u, x);
    }
    if HasKey(u, |u|, x) {
      HasKeyAlike(u, t, x);
    }
  }

  lemma {:induction false} TableKeys(xs: seq<Ip4Rule>)
    ensures SameKeys(InsertAll(xs), FirstKeys(xs))
    decreases |xs|
  {
    if xs != [] {
      var init := xs[..|xs| - 1];
      TableKeys(init);
      SameKeysStep(InsertAll(init), FirstKeys(init), xs[|xs| - 1]);
    }
  }

  lemma {:induction false} LookupByKeys(t: seq<Ip4Rule>, u: seq<Ip4Rule>, p: nat)
    requires SameKeys(t, u)
    ensures Lookup(t, p).Some? <==> Lookup(u, p).Some?
    ensures Lookup(t, p).Some? ==> SameKey(Lookup(t, p).value, Lookup(u, p).value)
    decreases |t|
  {
    if t != [] {
      LookupByKeys(t[..|t| - 1], u[..|u| - 1], p);
    }
  }

  lemma {:induction false} WinnerMatches(xs: seq<Ip4Rule>, p: nat)
    ensures var r, w := Lookup(InsertAll(xs), p), Winner(xs, p);
            (r.Some? <==> w.Some?) && (r.Some? ==> SameKey(r.value, w.value))
  {
    TableKeys(xs);
    LookupByKeys(InsertAll(xs), FirstKeys(xs), p);
  }

  /** No insertion of the matched length that contains the address has a rule outside `found`. */
  predicate NothingMissed(xs: seq<Ip4Rule>, p: nat, mask: nat, found: set<nat>) {
    forall j :: 0 <= j < |xs| && xs[j].mask == mask && Contains(xs[j], p) ==> xs[j].rules <= found
  }

  lemma {:induction false} OwnAtMatch(xs: seq<Ip4Rule>, p: nat, e: Ip4Rule, found: set<nat>)
    requires Legal(xs) && LongestFor(xs, p, e) && Own(xs, e.addr, e.mask) <= found
    ensures Own(xs, e.addr, e.mask) <= Above(xs, p, IPV4_MAX_PREFIXLEN)
    ensures Above(xs, p, IPV4_MAX_PREFIXLEN) <= found <==> NothingMissed(xs, p, e.mask, found)
  {
    var k :| 0 <= k < |xs| && SameKey(xs[k], e);
    forall b | b in Own(xs, e.addr, e.mask) ensures b in Above(xs, p, IPV4_MAX_PREFIXLEN) {
      var j := OwnFrom(xs, e.addr, e.mask, b);
      ShorterAgrees(p, e.addr, xs[j].mask, e.mask);
      AboveHas(xs, p, IPV4_MAX_PREFIXLEN, j);
    }
    if NothingMissed(xs, p, e.mask, found) {
      forall b | b in Above(xs, p, IPV4_MAX_PREFIXLEN) ensures b in found {
        var j := AboveFrom(xs, p, IPV4_MAX_PREFIXLEN, b);
        if xs[j].mask < e.mask {
          ShorterAgrees(p, e.addr, xs[j].mask, e.mask);
          OwnHas(xs, e.addr, e.mask, j);
        }
      }
    } else {
      var j :| 0 <= j < |xs| && xs[j].mask == e.mask && Contains(xs[j], p) && !(xs[j].rules <= found);
      AboveHas(xs, p, IPV4_MAX_PREFIXLEN, j);
    }
  }

  /** For every address: there is a match if and only if an inserted prefix contains it; the match is
      the winner among the inserted prefixes and has exactly the rules inserted under that key and
      under the strictly shorter prefixes; and these are the rules of all the prefixes that contain
      the address if and only if they include those of the insertions of the winner's length. */
  lemma {:induction false} LookupIs(xs: seq<Ip4Rule>, p: nat)
    requires Legal(xs)
    ensures var r, w := Lookup(InsertAll(xs), p), Winner(xs, p);
            && (r.Some? <==> exists j :: 0 <= j < |xs| && Contains(xs[j], p))
            && (r.Some? <==> w.Some?)
            && (r.Some? ==>
                  && LongestFor(xs, p, w.value)
                  && r.value == Ip4Rule(w.value.addr, w.value.mask, Own(xs, w.value.addr, w.value.mask))
                  && (r.value.rules == Above(xs, p, IPV4_MAX_PREFIXLEN) <==>
                      NothingMissed(xs, p, w.value.mask, Own(xs, w.value.addr, w.value.mask))))
  {
    MatchedEntry(xs, p);
    WinnerMatches(xs, p);
    var w := Winner(xs, p);
    if w.Some? {
      OwnAtMatch(xs, p, w.value, Own(xs, w.value.addr, w.value.mask));
    }
  }

  lemma {:induction false} TwoEntries(x: Ip4Rule, y: Ip4Rule)
    requires x.mask == y.mask && x.addr != y.addr
    ensures InsertAll([x, y]) == [x, y]
  {
    assert [x, y][..1] == [x] && [x][..0] == [];
    assert InsertAll([x]) == [x];
    assert Copy([x], 1, y) == y.rules + {} == y.rules;
  }

  /** Two addresses of one network: a match in it finds the rules of the later one only. */
  lemma {:induction false} SecondAddressWins(x: Ip4Rule, y: Ip4Rule, p: nat)
    requires x.mask == y.mask <= IPV4_MAX_PREFIXLEN && x.addr != y.addr && Contains(x, p) && Contains(y, p)
    ensures Lookup(InsertAll([x, y]), p) == Some(y)
    ensures Above([x, y], p, IPV4_MAX_PREFIXLEN) == x.rules + y.rules
  {
    TwoEntries(x, y);
    assert [x, y][..1] == [x] && [x][..0] == [];
    assert Lookup([x], p) == Some(x);
    assert Above([x], p, IPV4_MAX_PREFIXLEN) == {} + x.rules == x.rules;
  }

  /** So it is with 10.0.0.1/8 and 10.0.0.2/8. */
  lemma {:induction false} TwoAddressesOneNetwork()
    ensures var xs := [Ip4Rule(0x0A00_0001, 8, {0}), Ip4Rule(0x0A00_0002, 8, {1})];
            && Lookup(InsertAll(xs), 0x0A00_0003) == Some(xs[1])
            && Above(xs, 0x0A00_0003, IPV4_MAX_PREFIXLEN) == {0, 1}
  {
    assert Shift(0x0A00_0001, 24) == Shift(0x0A00_0002, 24) == Shift(0x0A00_0003, 24);
    SecondAddressWins(Ip4Rule(0x0A00_0001, 8, {0}), Ip4Rule(0x0A00_0002, 8, {1}), 0x0A00_0003);
  }

  // ---------------------------------------------------------------------------------------
  // When the whole table is exact

  /** Every entry has exactly the rules of the insertions that contain it. */
  predicate Exact(table: seq<Ip4Rule>, xs: seq<Ip4Rule>) {
    forall i :: 0 <= i < |table| ==> table[i].rules == Above(xs, table[i].addr, table[i].mask)
  }

  /** Insertions of one network have no rule that the others' keys lack. */
  predicate Shared(xs: seq<Ip4Rule>) {
    forall i, j :: 0 <= i < |xs| && 0 <= j < |xs| && xs[i].mask == xs[j].mask && Contains(xs[j], xs[i].addr) ==>
      xs[j].rules <= Own(xs, xs[i].addr, xs[i].mask)
  }

  lemma {:induction false} OwnIsAbove(xs: seq<Ip4Rule>, addr: nat, mask: nat)
    requires mask <= IPV4_MAX_PREFIXLEN
    ensures Own(xs, addr, mask) == Above(xs, addr, mask) <==> NothingMissed(xs, addr, mask, Own(xs, addr, mask))
  {
    forall b | b in Own(xs, addr, mask) ensures b in Above(xs, addr, mask) {
      var j := OwnFrom(xs, addr, mask, b);
      AboveHas(xs, addr, mask, j);
    }
    if NothingMissed(xs, addr, mask, Own(xs, addr, mask)) {
      forall b | b in Above(xs, addr, mask) ensures b in Own(xs, addr, mask) {
        var j := AboveFrom(xs, addr, mask, b);
        if xs[j].mask < mask {
          OwnHas(xs, addr, mask, j);
        }
      }
    } else {
      var j :| 0 <= j < |xs| && xs[j].mask == mask && Contains(xs[j], addr) && !(xs[j].rules <= Own(xs, addr, mask));
      AboveHas(xs, addr, mask, j);
    }
  }

  /** For every sequence of insertions, the exact condition. */
  lemma {:induction false} ExactIffShared(xs: seq<Ip4Rule>)
    requires Legal(xs)
    ensures Exact(InsertAll(xs), xs) <==> Shared(xs)
  {
    var table := InsertAll(xs);
    TableIs(xs);
    AllKeyed(xs);
    if Shared(xs) {
      forall k | 0 <= k < |table| ensures table[k].rules == Above(xs, table[k].addr, table[k].mask) {
        assert HasKey(xs, |xs|, table[k]);
        var i :| 0 <= i < |xs| && SameKey(xs[i], table[k]);
        OwnIsAbove(xs, xs[i].addr, xs[i].mask);
      }
    }
    if Exact(table, xs) {
      forall i, j | 0 <= i < |xs| && 0 <= j < |xs| && xs[i].mask == xs[j].mask && Contains(xs[j], xs[i].addr)
        ensures xs[j].rules <= Own(xs, xs[i].addr, xs[i].mask)
      {
        assert HasKey(table, |table|, xs[i]);
        var k :| 0 <= k < |table| && SameKey(table[k], xs[i]);
        AboveHas(xs, xs[i].addr, xs[i].mask, j);
      }
    }
  }

  /** One network is always given by one address: so it is when host bits are zero. */
  predicate Consistent(xs: seq<Ip4Rule>) {
    forall i, j :: 0 <= i < |xs| && 0 <= j < |xs| && xs[i].mask == xs[j].mask && Contains(xs[i], xs[j].addr) ==>
      xs[i].addr == xs[j].addr
  }

  /** Addresses whose host bits are zero are consistent. */
  lemma {:induction false} CanonicalIsConsistent(xs: seq<Ip4Rule>)
    requires Legal(xs) && forall i :: 0 <= i < |xs| ==> LowClear(xs[i].addr, IPV4_MAX_PREFIXLEN - xs[i].mask)
    ensures Consistent(xs)
  {
    forall i, j | 0 <= i < |xs| && 0 <= j < |xs| && xs[i].mask == xs[j].mask && Contains(xs[i], xs[j].addr)
      ensures xs[i].addr == xs[j].addr
    {
      var k := IPV4_MAX_PREFIXLEN - xs[i].mask;
      ShiftedAlike(xs[i].addr, k, xs[j].addr);
      ShiftedAlike(xs[j].addr, k, xs[i].addr);
    }
  }

  lemma {:induction false} ConsistentIsShared(xs: seq<Ip4Rule>)
    requires Consistent(xs)
    ensures Shared(xs)
  {
    forall i, j | 0 <= i < |xs| && 0 <= j < |xs| && xs[i].mask == xs[j].mask && Contains(xs[j], xs[i].addr)
      ensures xs[j].rules <= Own(xs, xs[i].addr, xs[i].mask)
    {
      OwnHas(xs, xs[i].addr, xs[i].mask, j);
    }
  }

  lemma {:induction false} TableIsExact(xs: seq<Ip4Rule>)
    requires Consistent(xs) && Legal(xs)
    ensures Exact(InsertAll(xs), xs)
  {
    ConsistentIsShared(xs);
    ExactIffShared(xs);
  }

  /** With consistent addresses every match finds all the rules it should. */
  lemma {:induction false} LookupFindsAll(xs: seq<Ip4Rule>, p: nat)
    requires Consistent(xs) && Legal(xs)
    ensures var r := Lookup(InsertAll(xs), p);
            && (r.Some? <==> exists j :: 0 <= j < |xs| && Contains(xs[j], p))
            && (r.Some? ==> r.value.rules == Above(xs, p, IPV4_MAX_PREFIXLEN))
  {
    LookupIs(xs, p);
    var w := Winner(xs, p);
    if w.Some? {
      var e := w.value;
      var k :| 0 <= k < |xs| && SameKey(xs[k], e);
      forall j | 0 <= j < |xs| && xs[j].mask == e.mask && Contains(xs[j], p) ensures xs[j].rules <= Own(xs, e.addr, e.mask) {
        assert Contains(xs[k], xs[j].addr);
        OwnHas(xs, e.addr, e.mask, j);
      }
    }
  }

  /** If every insertion carries a rule of its own, nothing less than consistency will do. */
  lemma {:induction false} ExactIffConsistent(xs: seq<Ip4Rule>)
    requires Legal(xs) && forall i :: 0 <= i < |xs| ==> xs[i].rules == {i}
    ensures Exact(InsertAll(xs), xs) <==> Consistent(xs)
  {
    ExactIffShared(xs);
    if Consistent(xs) {
      ConsistentIsShared(xs);
    }
    if Shared(xs) {
      forall i, j | 0 <= i < |xs| && 0 <= j < |xs| && xs[i].mask == xs[j].mask && Contains(xs[i], xs[j].addr)
        ensures xs[i].addr == xs[j].addr
      {
        assert j in xs[j].rules;
        var k := OwnFrom(xs, xs[i].addr, xs[i].mask, j);
      }
    }
  }

  // ---------------------------------------------------------------------------------------
  // The whole table: the fallback entry and the rules without addresses

  lemma {:induction false} WidenedLookup(table: seq<Ip4Rule>, rules: set<nat>, p: nat)
    ensures var r, w := Lookup(table, p), Lookup(Widened(table, rules), p);
            w == if r.Some? then Some(r.value.(rules := r.value.rules + rules)) else None
    decreases |table|
  {
    if table != [] {
      var n := |table| - 1;
      assert Widened(table, rules)[..n] == Widened(table[..n], rules);
      WidenedLookup(table[..n], rules, p);
    }
  }

  lemma {:induction false} FallbackAddsNothing(xs: seq<Ip4Rule>, p: nat)
    ensures Above(xs + [FALLBACK], p, IPV4_MAX_PREFIXLEN) == Above(xs, p, IPV4_MAX_PREFIXLEN)
    ensures Contains(FALLBACK, p) <==> p == OTHER_IP4_KEY
  {
    assert (xs + [FALLBACK])[..|xs|] == xs;
  }

  lemma {:induction false} FallbackHolds(xs: seq<Ip4Rule>)
    requires Legal(xs)
    ensures var r := Lookup(InsertAll(xs + [FALLBACK]), OTHER_IP4_KEY);
            r.Some? && r.value.rules == Above(xs, OTHER_IP4_KEY, IPV4_MAX_PREFIXLEN)
  {
    var ys := xs + [FALLBACK];
    assert ys[|xs|] == FALLBACK && Contains(FALLBACK, OTHER_IP4_KEY);
    LookupIs(ys, OTHER_IP4_KEY);
    FallbackAddsNothing(xs, OTHER_IP4_KEY);
    var e := Winner(ys, OTHER_IP4_KEY).value;
    assert ys[|xs|].mask <= e.mask;
    assert HasKey(ys, |ys|, e);
    var k :| 0 <= k < |ys| && SameKey(ys[k], e);
    forall j | 0 <= j < |ys| && ys[j].mask == e.mask && Contains(ys[j], OTHER_IP4_KEY)
      ensures ys[j].rules <= Own(ys, e.addr, e.mask)
    {
      OwnHas(ys, e.addr, e.mask, j);
    }
  }

  /** Every packet finds something: the rules of its match, or for an address in no inserted prefix
      those of the prefixes that contain 255.255.255.255; besides, the rules without addresses. */
  lemma {:induction false} FoundIs(xs: seq<Ip4Rule>, free: set<nat>, p: nat)
    requires Legal(xs)
    ensures var r := Lookup(InsertAll(xs + [FALLBACK]), p);
            Found(xs, free, p) ==
            Some((if r.Some? then r.value.rules else Above(xs, OTHER_IP4_KEY, IPV4_MAX_PREFIXLEN)) + free)
  {
    var table := InsertAll(xs + [FALLBACK]);
    WidenedLookup(table, free, p);
    WidenedLookup(table, free, OTHER_IP4_KEY);
    FallbackHolds(xs);
  }

  /** An address in no inserted prefix finds just the rules without addresses if and only if those
      include the rules of every prefix that contains 255.255.255.255. */
  lemma {:induction false} UnmatchedIsExactIff(xs: seq<Ip4Rule>, free: set<nat>, p: nat)
    requires Legal(xs) && forall j :: 0 <= j < |xs| ==> !Contains(xs[j], p)
    ensures Found(xs, free, p) == Some(free) <==> Above(xs, OTHER_IP4_KEY, IPV4_MAX_PREFIXLEN) <= free
  {
    var ys := xs + [FALLBACK];
    FoundIs(xs, free, p);
    LookupIs(ys, p);
    FallbackAddsNothing(xs, p);
    if p == OTHER_IP4_KEY {
      FallbackHolds(xs);
    } else {
      assert forall j :: 0 <= j < |ys| ==> !Contains(ys[j], p);
    }
    var a := Above(xs, OTHER_IP4_KEY, IPV4_MAX_PREFIXLEN);
    assert a + free == free <==> a <= free;
  }

  /** 255.255.255.0/24 contains the fallback key, so 10.0.0.1, outside of it, finds its rule. */
  lemma {:induction false} FallbackSharesRules()
    ensures var xs := [Ip4Rule(0xFFFF_FF00, 24, {0})];
            !Contains(xs[0], 0x0A00_0001) && Found(xs, {}, 0x0A00_0001) == Some({0})
  {
    var x := Ip4Rule(0xFFFF_FF00, 24, {0});
    assert Shift(0xFFFF_FF00, 8) == Shift(0xFFFF_FFFF, 8) && Shift(0x0A00_0001, 8) != Shift(0xFFFF_FFFF, 8);
    assert !Contains(x, 0x0A00_0001) && Contains(x, OTHER_IP4_KEY);
    OneContains(x, 0x0A00_0001);
  }

  lemma {:induction false} OneContains(x: Ip4Rule, p: nat)
    requires 1 <= x.mask <= IPV4_MAX_PREFIXLEN && !Contains(x, p) && Contains(x, OTHER_IP4_KEY)
    ensures Found([x], {}, p) == Some(x.rules)
  {
    var xs := [x];
    FoundIs(xs, {}, p);
    var ys := xs + [FALLBACK];
    FallbackAddsNothing(xs, p);
    forall j | 0 <= j < |ys| ensures !Contains(ys[j], p) {
      assert ys[j] == x || ys[j] == FALLBACK;
    }
    MatchedEntry(ys, p);
    assert [x][..0] == [];
    assert Above(xs, OTHER_IP4_KEY, IPV4_MAX_PREFIXLEN) == {} + x.rules == x.rules;
    assert x.rules + {} == x.rules;
  }

  /** An address in some inserted prefix finds exactly the rules of all the prefixes that contain it
      and those without addresses if and only if these, and the rules inserted under the winner's key
      and the strictly shorter prefixes, include those of the insertions of the winner's length. */
  lemma {:induction false} MatchedIsExactIff(xs: seq<Ip4Rule>, free: set<nat>, p: nat)
    requires Legal(xs) && exists j :: 0 <= j < |xs| && Contains(xs[j], p)
    ensures var w := Winner(xs + [FALLBACK], p);
            && w.Some?
            && (Found(xs, free, p) == Some(Above(xs, p, IPV4_MAX_PREFIXLEN) + free) <==>
                NothingMissed(xs, p, w.value.mask, Own(xs, w.value.addr, w.value.mask) + free))
  {
    var ys := xs + [FALLBACK];
    FoundIs(xs, free, p);
    LookupIs(ys, p);
    FallbackAddsNothing(xs, p);
    var j :| 0 <= j < |xs| && Contains(xs[j], p);
    assert ys[j] == xs[j];
    var w := Winner(ys, p).value;
    FallbackFeedsNothing(xs, w.addr, w.mask);
    var own := Own(xs, w.addr, w.mask);
    OwnAtMatch(ys, p, w, own + free);
    MissedAlike(xs, p, w.mask, own + free);
    var a := Above(xs, p, IPV4_MAX_PREFIXLEN);
    assert own + free == a + free <==> a <= own + free;
  }

  lemma {:induction false} FallbackFeedsNothing(xs: seq<Ip4Rule>, addr: nat, mask: nat)
    ensures Own(xs + [FALLBACK], addr, mask) == Own(xs, addr, mask)
  {
    OwnSnoc(xs, FALLBACK, addr, mask);
  }

  lemma {:induction false} MissedAlike(xs: seq<Ip4Rule>, p: nat, mask: nat, found: set<nat>)
    ensures NothingMissed(xs + [FALLBACK], p, mask, found) <==> NothingMissed(xs, p, mask, found)
  {
    var ys := xs + [FALLBACK];
    assert forall i :: 0 <= i < |xs| ==> ys[i] == xs[i];
  }
}
