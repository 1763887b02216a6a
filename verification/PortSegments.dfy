/**
 The firewall's port segments: a list of disjoint intervals in ascending order, each with the set of
 the rules (the set bits of its bitmap) that apply to its ports. Adding an interval splits the
 segments it meets.
 */
module PortSegmentSpec {
  import opened Options

  const UINT16_MAX: nat := 65535

  datatype Segment = Segment(start: nat, end: nat, rules: set<nat>)

  predicate Covers(s: Segment, p: nat) {
    s.start <= p <= s.end
  }

  predicate Ordered(segs: seq<Segment>) {
    && (forall i :: 0 <= i < |segs| ==> segs[i].start <= segs[i].end <= UINT16_MAX)
    && (forall i, j :: 0 <= i < j < |segs| ==> segs[i].end < segs[j].start)
  }

  /** The rules a list of segments gives port `p`, if any segment has it. */
  function At(segs: seq<Segment>, p: nat): Option<set<nat>> {
    if segs == [] then None
    else if Covers(segs[|segs| - 1], p) then Some(segs[|segs| - 1].rules)
    else At(segs[..|segs| - 1], p)
  }

  function Rules(o: Option<set<nat>>): set<nat> {
    if o.Some? then o.value else {}
  }

  /** What port `p` should get once `b` has been added on the ports from `s` to `e`. */
  function Merged(segs: seq<Segment>, s: nat, e: nat, b: set<nat>, p: nat): Option<set<nat>> {
    if s <= p <= e then Some(Rules(At(segs, p)) + b) else At(segs, p)
  }

  lemma {:induction false} AtIs(segs: seq<Segment>, i: nat, p: nat)
    requires Ordered(segs) && i < |segs| && Covers(segs[i], p)
    ensures At(segs, p) == Some(segs[i].rules)
    decreases |segs|
  {
    var n := |segs| - 1;
    if i < n {
      assert segs[i].end < segs[n].start;
      AtIs(segs[..n], i, p);
    }
  }

  lemma {:induction false} AtNone(segs: seq<Segment>, p: nat)
    requires forall i :: 0 <= i < |segs| ==> !Covers(segs[i], p)
    ensures At(segs, p) == None
    decreases |segs|
  {
    if segs != [] {
      AtNone(segs[..|segs| - 1], p);
    }
  }

  /** Some segment has every port that is given rules. */
  lemma {:induction false} AtSome(segs: seq<Segment>, p: nat) returns (i: nat)
    requires At(segs, p).Some?
    ensures i < |segs| && Covers(segs[i], p)
    decreases |segs|
  {
    var n := |segs| - 1;
    if Covers(segs[n], p) {
      i := n;
    } else {
      i := AtSome(segs[..n], p);
    }
  }

  lemma {:induction false} AtAppend(a: seq<Segment>, b: seq<Segment>, p: nat)
    ensures At(a + b, p) == if At(b, p).Some? then At(b, p) else At(a, p)
    decreases |b|
  {
    if b == [] {
      assert a + b == a;
    } else {
      var n := |b| - 1;
      assert (a + b)[..|a + b| - 1] == a + b[..n];
      AtAppend(a, b[..n], p);
    }
  }

  // ---------------------------------------------------------------------------------------
  // Building the replacement of the segments `mid` from left to right

  /** `done` gives every port below `d` what it should get, and has none from `d` on. */
  ghost predicate UpTo(done: seq<Segment>, d: nat, mid: seq<Segment>, s: nat, e: nat, b: set<nat>) {
    && Ordered(done)
    && (forall i :: 0 <= i < |done| ==> done[i].end < d)
    && (forall p: nat :: At(done, p) == if p < d then Merged(mid, s, e, b, p) else None)
  }

  lemma {:induction false} Extend(done: seq<Segment>, x: Segment, mid: seq<Segment>, s: nat, e: nat, b: set<nat>)
    requires UpTo(done, x.start, mid, s, e, b) && x.start <= x.end <= UINT16_MAX
    requires forall p: nat :: Covers(x, p) ==> Merged(mid, s, e, b, p) == Some(x.rules)
    ensures UpTo(done + [x], x.end + 1, mid, s, e, b)
  {
    forall p: nat
      ensures At(done + [x], p) == if p < x.end + 1 then Merged(mid, s, e, b, p) else None
    {
      assert (done + [x])[..|done|] == done;
    }
  }

  /** A piece of the added interval before segment `k`, met by no segment. */
  lemma {:induction false} ExtendGap(done: seq<Segment>, x: Segment, mid: seq<Segment>, k: nat, s: nat, e: nat, b: set<nat>)
    requires UpTo(done, x.start, mid, s, e, b) && Ordered(mid) && k <= |mid|
    requires s <= x.start <= x.end <= e <= UINT16_MAX && x.rules == b
    requires (k > 0 ==> mid[k - 1].end < x.start) && (k < |mid| ==> x.end < mid[k].start)
    ensures UpTo(done + [x], x.end + 1, mid, s, e, b)
  {
    forall p: nat | Covers(x, p) ensures Merged(mid, s, e, b, p) == Some(x.rules) {
      forall i | 0 <= i < |mid| ensures !Covers(mid[i], p) {
        if i < k - 1 {
          assert mid[i].end < mid[k - 1].start;
        } else if i > k {
          assert mid[k].end < mid[i].start;
        }
      }
      AtNone(mid, p);
      assert {} + b == b;
    }
    Extend(done, x, mid, s, e, b);
  }

  /** A piece of segment `k`, inside or outside the added interval. */
  lemma {:induction false} ExtendPart(done: seq<Segment>, x: Segment, mid: seq<Segment>, k: nat, s: nat, e: nat, b: set<nat>)
    requires UpTo(done, x.start, mid, s, e, b) && Ordered(mid) && k < |mid|
    requires mid[k].start <= x.start <= x.end <= mid[k].end
    requires || (s <= x.start && x.end <= e && x.rules == mid[k].rules + b)
             || ((x.end < s || e < x.start) && x.rules == mid[k].rules)
    ensures UpTo(done + [x], x.end + 1, mid, s, e, b)
  {
    forall p: nat | Covers(x, p) ensures Merged(mid, s, e, b, p) == Some(x.rules) {
      AtIs(mid, k, p);
    }
    Extend(done, x, mid, s, e, b);
  }

  lemma {:induction false} Nothing(mid: seq<Segment>, s: nat, e: nat, b: set<nat>, d: nat)
    requires s <= e && d <= s && (mid != [] ==> d <= mid[0].start) && Ordered(mid)
    ensures UpTo([], d, mid, s, e, b)
  {
    forall p: nat | p < d ensures Merged(mid, s, e, b, p) == None {
      AtNone(mid, p);
    }
  }

  lemma {:induction false} Finish(done: seq<Segment>, d: nat, mid: seq<Segment>, s: nat, e: nat, b: set<nat>)
    requires UpTo(done, d, mid, s, e, b) && e < d && forall i :: 0 <= i < |mid| ==> mid[i].end < d
    ensures forall p: nat :: At(done, p) == Merged(mid, s, e, b, p)
  {
    forall p: nat ensures At(done, p) == Merged(mid, s, e, b, p) {
      if p >= d {
        AtNone(mid, p);
      }
    }
  }
}

module PortSegments {
  import opened PortSegmentSpec

  // std::sort by the start of the segments.

  function InsertByStart(x: Segment, segs: seq<Segment>): (r: seq<Segment>)
    ensures multiset(r) == multiset(segs) + multiset{x}
  {
    if segs == [] || segs[|segs| - 1].start <= x.start then segs + [x]
    else
      var n := |segs| - 1;
      assert segs == segs[..n] + [segs[n]];
      InsertByStart(x, segs[..n]) + [segs[n]]
  }

  /** A permutation; segments that are in order already stay as they are. */
  function SortByStart(segs: seq<Segment>): (r: seq<Segment>)
    ensures multiset(r) == multiset(segs)
    ensures Ordered(segs) ==> r == segs
  {
    if segs == [] then []
    else
      var n := |segs| - 1;
      assert segs == segs[..n] + [segs[n]];
      assert n > 0 && Ordered(segs) ==> segs[n - 1].end < segs[n].start;
      InsertByStart(segs[n], SortByStart(segs[..n]))
  }

  /** std::lower_bound by the start of the segments. */
  function LowerBound(segs: seq<Segment>, start: nat): (k: nat)
    ensures k <= |segs|
    ensures forall i :: 0 <= i < k ==> segs[i].start < start
    ensures k < |segs| ==> segs[k].start >= start
  {
    if segs == [] || segs[0].start >= start then 0 else 1 + LowerBound(segs[1..], start)
  }

  lemma {:induction false} LowerBoundIs(segs: seq<Segment>, start: nat, k: nat)
    requires k <= |segs| && (forall i :: 0 <= i < k ==> segs[i].start < start) && (k < |segs| ==> segs[k].start >= start)
    ensures LowerBound(segs, start) == k
    decreases k
  {
    if k > 0 {
      assert segs[0].start < start;
      LowerBoundIs(segs[1..], start, k - 1);
    }
  }

  /** The indices of the segments that meet an interval are consecutive, from `lo` on. */
  predicate Meets(segs: seq<Segment>, s: nat, e: nat, lo: nat, n: nat) {
    && lo + n <= |segs|
    && (forall i :: 0 <= i < lo ==> segs[i].end < s)
    && (forall i :: lo <= i < lo + n ==> segs[i].start <= e && s <= segs[i].end)
    && (forall i :: lo + n <= i < |segs| ==> e < segs[i].start)
  }

  lemma {:induction false} OrderedPrefix(segs: seq<Segment>, n: nat)
    requires Ordered(segs) && n <= |segs|
    ensures Ordered(segs[..n])
  {
  }

  lemma {:induction false} OrderedSlice(segs: seq<Segment>, lo: nat, n: nat)
    requires Ordered(segs) && lo + n <= |segs|
    ensures Ordered(segs[lo..lo + n])
  {
  }

  /** One more segment: it meets the interval and joins the run, or lies before or after it. */
  lemma {:induction false} MeetsNext(segs: seq<Segment>, s: nat, e: nat, lo: nat, n: nat, x: Segment)
    requires Meets(segs, s, e, lo, n) && Ordered(segs + [x]) && s <= e
    ensures x.start <= e && s <= x.end ==> lo + n == |segs| && Meets(segs + [x], s, e, lo, n + 1)
    ensures x.end < s ==> lo == |segs| && n == 0 && Meets(segs + [x], s, e, lo + 1, 0)
    ensures e < x.start ==> Meets(segs + [x], s, e, lo, n)
  {
    var all := segs + [x];
    if lo < |segs| {
      assert all[lo].end < all[|segs|].start;
    }
    if lo + n < |segs| {
      assert all[lo + n].end < all[|segs|].start;
    }
  }

  predicate Consecutive(indices: seq<nat>, lo: nat) {
    forall k :: 0 <= k < |indices| ==> indices[k] == lo + k
  }

  lemma {:induction false} MeetsIsMembership(segs: seq<Segment>, s: nat, e: nat, indices: seq<nat>, lo: nat)
    requires Ordered(segs) && s <= e && Meets(segs, s, e, lo, |indices|) && Consecutive(indices, lo)
    ensures forall i: nat :: i < |segs| ==> (i in indices <==> s <= segs[i].end && segs[i].start <= e)
  {
    forall i: nat | i < |segs| ensures i in indices <==> s <= segs[i].end && segs[i].start <= e {
      if lo <= i < lo + |indices| {
        assert indices[i - lo] == i;
      }
    }
  }

  /** A segment that reaches `e`, when all start by `e`, is the last of all. */
  lemma {:induction false} LastOne(mid: seq<Segment>, k: nat, e: nat)
    requires Ordered(mid) && k < |mid| && e <= mid[k].end && forall i :: 0 <= i < |mid| ==> mid[i].start <= e
    ensures k == |mid| - 1 && forall i :: 0 <= i < |mid| ==> mid[i].end <= mid[k].end
  {
    assert mid[|mid| - 1].start <= e;
    AllBefore(mid);
  }

  lemma {:induction false} AllBefore(mid: seq<Segment>)
    requires Ordered(mid)
    ensures forall i :: 0 <= i < |mid| ==> mid[i].end <= mid[|mid| - 1].end
  {
    forall i | 0 <= i < |mid| ensures mid[i].end <= mid[|mid| - 1].end {
      if i < |mid| - 1 {
        assert mid[i].end < mid[|mid| - 1].start;
      }
    }
  }

  /** The first port not yet dealt with once `k` of the segments have been cut. */
  function From(mid: seq<Segment>, k: nat, s: nat): nat
    requires k <= |mid|
  {
    if k > 0 then mid[k - 1].end + 1 else if mid != [] && mid[0].start < s then mid[0].start else s
  }

  predicate Position(mid: seq<Segment>, k: nat, s: nat, currentPos: nat)
    requires k <= |mid|
  {
    if k > 0 then s <= currentPos == mid[k - 1].end + 1 else currentPos == s
  }

  /** One round of the cutting loop: what precedes segment `k`, its overlap, what remains of it. */
  method CutSegment(newSegments: seq<Segment>, currentPos: nat, targetStart: nat, targetEnd: nat, targetRules: set<nat>,
                    mid: seq<Segment>, k: nat)
    returns (out: seq<Segment>, next: nat, full: bool)
    requires Ordered(mid) && k < |mid| && mid[k].start <= targetEnd && targetStart <= mid[k].end
    requires targetStart <= targetEnd <= UINT16_MAX && currentPos <= targetEnd && Position(mid, k, targetStart, currentPos)
    requires UpTo(newSegments, From(mid, k, targetStart), mid, targetStart, targetEnd, targetRules)
    ensures UpTo(out, mid[k].end + 1, mid, targetStart, targetEnd, targetRules)
    ensures full ==> targetEnd == mid[k].end == UINT16_MAX
    ensures !full ==> next == (if targetEnd <= mid[k].end then targetEnd else mid[k].end) + 1
  {
    var seg := mid[k];
    out, next := newSegments, currentPos;
    assert k > 0 ==> mid[k - 1].end < seg.start;
    if next < seg.start {
      var x := Segment(next, seg.start - 1, targetRules);
      ExtendGap(out, x, mid, k, targetStart, targetEnd, targetRules);
      out := out + [x];
      next := seg.start;
    }
    if seg.start < next {
      var x := Segment(seg.start, next - 1, seg.rules);
      ExtendPart(out, x, mid, k, targetStart, targetEnd, targetRules);
      out := out + [x];
    }
    var overlapEnd := if targetEnd <= seg.end then targetEnd else seg.end;
    var x := Segment(next, overlapEnd, seg.rules + targetRules);
    ExtendPart(out, x, mid, k, targetStart, targetEnd, targetRules);
    out := out + [x];
    full := overlapEnd == UINT16_MAX;
    if full {
      return;
    }
    next := overlapEnd + 1;
    if next <= seg.end {
      var y := Segment(next, seg.end, seg.rules);
      ExtendPart(out, y, mid, k, targetStart, targetEnd, targetRules);
      out := out + [y];
    }
  }

  /** Cuts segments that meet the interval at its two ends, adds the bitmap inside it and fills the
      gaps between them. */
  method CutAll(mid: seq<Segment>, targetStart: nat, targetEnd: nat, targetRules: set<nat>)
    returns (newSegments: seq<Segment>)
    requires Ordered(mid) && targetStart <= targetEnd <= UINT16_MAX
    requires forall i :: 0 <= i < |mid| ==> mid[i].start <= targetEnd && targetStart <= mid[i].end
    ensures Ordered(newSegments)
    ensures forall p: nat :: At(newSegments, p) == Merged(mid, targetStart, targetEnd, targetRules, p)
  {
    var currentPos: nat := targetStart;
    newSegments := [];
    Nothing(mid, targetStart, targetEnd, targetRules, From(mid, 0, targetStart));
    var k := 0;
    while k < |mid|
      invariant 0 <= k <= |mid| && currentPos <= targetEnd
      invariant UpTo(newSegments, From(mid, k, targetStart), mid, targetStart, targetEnd, targetRules)
      invariant Position(mid, k, targetStart, currentPos)
    {
      var full;
      newSegments, currentPos, full := CutSegment(newSegments, currentPos, targetStart, targetEnd, targetRules, mid, k);
      if full || currentPos > targetEnd {
        LastOne(mid, k, targetEnd);
        Finish(newSegments, mid[k].end + 1, mid, targetStart, targetEnd, targetRules);
        return;
      }
      k := k + 1;
    }
    var x := Segment(currentPos, targetEnd, targetRules);
    CloseGap(newSegments, x, mid, targetStart, targetEnd, targetRules);
    newSegments := newSegments + [x];
  }

  lemma {:induction false} CloseGap(done: seq<Segment>, x: Segment, mid: seq<Segment>, s: nat, e: nat, b: set<nat>)
    requires Ordered(mid) && s <= x.start <= x.end == e <= UINT16_MAX && x.rules == b
    requires UpTo(done, From(mid, |mid|, s), mid, s, e, b) && x.start == From(mid, |mid|, s)
    ensures Ordered(done + [x]) && forall p: nat :: At(done + [x], p) == Merged(mid, s, e, b, p)
  {
    ExtendGap(done, x, mid, |mid|, s, e, b);
    AllBefore(mid);
    Finish(done + [x], e + 1, mid, s, e, b);
  }

  class SegmentBitmapMap {
    var segments: seq<Segment>

    constructor ()
      ensures segments == []
    {
      segments := [];
    }

    method CollectIntersectIndices(start: nat, end: nat) returns (indices: seq<nat>, ghost lo: nat)
      requires Ordered(segments) && start <= end
      ensures Meets(segments, start, end, lo, |indices|) && Consecutive(indices, lo)
      ensures forall i: nat :: i < |segments| ==> (i in indices <==> start <= segments[i].end && segments[i].start <= end)
    {
      indices, lo := [], 0;
      for i := 0 to |segments|
        invariant lo + |indices| <= i
        invariant Meets(segments[..i], start, end, lo, |indices|) && Consecutive(indices, lo)
      {
        var seg := segments[i];
        assert segments[..i + 1] == segments[..i] + [seg];
        OrderedPrefix(segments, i + 1);
        MeetsNext(segments[..i], start, end, lo, |indices|, seg);
        if !(end < seg.start || start > seg.end) {
          indices := indices + [i];
        } else if seg.end < start {
          lo := lo + 1;
        }
      }
      assert segments[..|segments|] == segments;
      MeetsIsMembership(segments, start, end, indices, lo);
    }

    /** The segments at some indices, in order of their starts. */
    method Gather(intersectIndices: seq<nat>, ghost lo: nat) returns (intersectSegs: seq<Segment>)
      requires Ordered(segments) && Consecutive(intersectIndices, lo) && lo + |intersectIndices| <= |segments|
      ensures intersectSegs == segments[lo..lo + |intersectIndices|]
    {
      intersectSegs := [];
      for i := 0 to |intersectIndices|
        invariant |intersectSegs| == i && forall k :: 0 <= k < i ==> intersectSegs[k] == segments[lo + k]
      {
        intersectSegs := intersectSegs + [segments[intersectIndices[i]]];
      }
      assert intersectSegs == segments[lo..lo + |intersectIndices|];
      OrderedSlice(segments, lo, |intersectIndices|);
      intersectSegs := SortByStart(intersectSegs);
    }

    /** Replaces the segments that meet the interval; the others give none of its ports. */
    method ProcessIntersections(targetStart: nat, targetEnd: nat, targetRules: set<nat>, intersectIndices: seq<nat>,
                                ghost lo: nat)
      returns (newSegments: seq<Segment>)
      requires Ordered(segments) && targetStart <= targetEnd <= UINT16_MAX
      requires Meets(segments, targetStart, targetEnd, lo, |intersectIndices|) && Consecutive(intersectIndices, lo)
      ensures Ordered(newSegments)
      ensures forall p: nat :: At(newSegments, p)
                            == Merged(segments[lo..lo + |intersectIndices|], targetStart, targetEnd, targetRules, p)
    {
      var intersectSegs := Gather(intersectIndices, lo);
      newSegments := CutAll(intersectSegs, targetStart, targetEnd, targetRules);
    }

    /** Erases from the last index to the first. */
    method RemoveSegments(indices: seq<nat>, ghost lo: nat)
      requires Consecutive(indices, lo) && lo + |indices| <= |segments|
      modifies this
      ensures segments == old(segments[..lo] + segments[lo + |indices|..])
    {
      var k := |indices|;
      while k > 0
        invariant 0 <= k <= |indices|
        invariant segments == old(segments[..lo + k] + segments[lo + |indices|..])
      {
        var idx := indices[k - 1];
        if idx < |segments| {
          segments := segments[..idx] + segments[idx + 1..];
        }
        k := k - 1;
      }
    }

    /** Inserts each new segment where its start puts it. */
    method InsertNewSegments(added: seq<Segment>, ghost pre: seq<Segment>, ghost post: seq<Segment>)
      requires segments == pre + post && Ordered(pre + added + post)
      modifies this
      ensures segments == pre + added + post
    {
      ghost var all := pre + added + post;
      for j := 0 to |added|
        invariant segments == pre + added[..j] + post
      {
        var seg := added[j];
        assert seg == all[|pre| + j];
        if seg.start <= seg.end {
          ghost var here := |pre| + j;
          assert forall i :: 0 <= i < here ==> segments[i] == all[i];
          assert here < |segments| ==> segments[here] == post[0] == all[|pre| + |added|];
          LowerBoundIs(segments, seg.start, here);
          var it := LowerBound(segments, seg.start);
          segments := segments[..it] + [seg] + segments[it..];
        }
      }
    }

    /** After adding an interval every port of it has `rules` besides what it had, every other port
        has what it had, and the segments are in order. */
    method AddMap(start: nat, end: nat, rules: set<nat>)
      requires Ordered(segments) && start <= UINT16_MAX && end <= UINT16_MAX
      modifies this
      ensures Ordered(segments)
      ensures start > end ==> segments == old(segments)
      ensures start <= end ==> forall p: nat :: At(segments, p) == Merged(old(segments), start, end, rules, p)
    {
      if start > end {
        return;
      }
      ghost var before := segments;
      var indices, lo := CollectIntersectIndices(start, end);
      var newSegments := ProcessIntersections(start, end, rules, indices, lo);
      ghost var pre, post := before[..lo], before[lo + |indices|..];
      Spliced(before, start, end, rules, lo, |indices|, newSegments);
      RemoveSegments(indices, lo);
      InsertNewSegments(newSegments, pre, post);
    }
  }

  /** Replacing the segments that meet an interval by segments that give their ports what they
      should get gives every port what it should get. */
  lemma {:induction false} Spliced(segs: seq<Segment>, s: nat, e: nat, b: set<nat>, lo: nat, n: nat, news: seq<Segment>)
    requires Ordered(segs) && Meets(segs, s, e, lo, n) && s <= e && Ordered(news)
    requires forall p: nat :: At(news, p) == Merged(segs[lo..lo + n], s, e, b, p)
    ensures var all := segs[..lo] + news + segs[lo + n..];
            Ordered(all) && forall p: nat :: At(all, p) == Merged(segs, s, e, b, p)
  {
    var all := segs[..lo] + news + segs[lo + n..];
    forall j | 0 <= j < |news|
      ensures forall i :: 0 <= i < lo ==> segs[i].end < news[j].start
      ensures forall i :: lo + n <= i < |segs| ==> news[j].end < segs[i].start
    {
      NewIsInside(segs, s, e, b, lo, n, news, j);
    }
    forall p: nat ensures At(all, p) == Merged(segs, s, e, b, p) {
      SplicedAt(segs, s, e, b, lo, n, news, p);
    }
  }

  lemma {:induction false} NewIsInside(segs: seq<Segment>, s: nat, e: nat, b: set<nat>, lo: nat, n: nat,
                                       news: seq<Segment>, j: nat)
    requires Ordered(segs) && Meets(segs, s, e, lo, n) && s <= e && Ordered(news) && j < |news|
    requires forall p: nat :: At(news, p) == Merged(segs[lo..lo + n], s, e, b, p)
    ensures forall i :: 0 <= i < lo ==> segs[i].end < news[j].start
    ensures forall i :: lo + n <= i < |segs| ==> news[j].end < segs[i].start
  {
    PortIsInside(segs, s, e, b, lo, n, news, j, news[j].start);
    PortIsInside(segs, s, e, b, lo, n, news, j, news[j].end);
  }

  lemma {:induction false} PortIsInside(segs: seq<Segment>, s: nat, e: nat, b: set<nat>, lo: nat, n: nat,
                                        news: seq<Segment>, j: nat, p: nat)
    requires Ordered(segs) && Meets(segs, s, e, lo, n) && s <= e && Ordered(news) && j < |news| && Covers(news[j], p)
    requires At(news, p) == Merged(segs[lo..lo + n], s, e, b, p)
    ensures forall i :: 0 <= i < lo ==> segs[i].end < p
    ensures forall i :: lo + n <= i < |segs| ==> p < segs[i].start
  {
    AtIs(news, j, p);
    if !(s <= p <= e) {
      var k := AtSome(segs[lo..lo + n], p);
      assert segs[lo..lo + n][k] == segs[lo + k];
    }
  }

  lemma {:induction false} SplicedAt(segs: seq<Segment>, s: nat, e: nat, b: set<nat>, lo: nat, n: nat,
                                     news: seq<Segment>, p: nat)
    requires Ordered(segs) && Meets(segs, s, e, lo, n) && s <= e
    requires At(news, p) == Merged(segs[lo..lo + n], s, e, b, p)
    ensures At(segs[..lo] + news + segs[lo + n..], p) == Merged(segs, s, e, b, p)
  {
    var pre, mid, post := segs[..lo], segs[lo..lo + n], segs[lo + n..];
    assert segs == (pre + mid) + post;
    AtThree(pre, mid, post, p);
    AtThree(pre, news, post, p);
    if s <= p <= e {
      AtNone(pre, p);
      AtNone(post, p);
    }
  }

  lemma {:induction false} AtThree(a: seq<Segment>, b: seq<Segment>, c: seq<Segment>, p: nat)
    ensures At((a + b) + c, p) == if At(c, p).Some? then At(c, p) else if At(b, p).Some? then At(b, p) else At(a, p)
  {
    AtAppend(a + b, c, p);
    AtAppend(a, b, p);
  }
}
