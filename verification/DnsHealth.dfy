/**
 DNS health.  Each report batch is counted per network; a network whose batch fails too often
 steps a counter that survives batches, and every third such batch in a row asks for a network
 detection.
 */
module DnsSpec {

  const MAX_FAIL_VALUE: nat := 3
  const DNS_FAIL_REASON_PARAM_INVALID := -1101

  datatype Report = Report(netid: nat, queryResult: int)

  datatype Tally = Tally(total: nat, fail: nat)

  datatype Detection = Detection(netid: nat, healthy: bool)

  predicate Accepted(r: Report) {
    r.queryResult != DNS_FAIL_REASON_PARAM_INVALID
  }

  /** Reports of network 0 stand for the default network. */
  function Target(r: Report, defaultNet: nat): nat {
    if r.netid == 0 then defaultNet else r.netid
  }

  /** Plain counting, the reference for the aggregation loop. */
  function Count(reports: seq<Report>, defaultNet: nat, net: nat, failedOnly: bool): nat {
    if reports == [] then 0
    else
      var r := reports[|reports| - 1];
      Count(reports[..|reports| - 1], defaultNet, net, failedOnly) +
      if Accepted(r) && Target(r, defaultNet) == net && (failedOnly ==> r.queryResult != 0) then 1 else 0
  }

  /** failReports / totalReports > 0.6 */
  predicate Unhealthy(t: Tally) {
    5 * t.fail > 3 * t.total
  }

  /** What one batch says about one network. */
  datatype Verdict = Silent | Good | Bad

  function VerdictOf(reports: seq<Report>, defaultNet: nat, net: nat): Verdict {
    if Count(reports, defaultNet, net, false) == 0 then Silent
    else if Unhealthy(Tally(Count(reports, defaultNet, net, false), Count(reports, defaultNet, net, true))) then Bad
    else Good
  }

  function Lookup(m: map<nat, nat>, net: nat): nat {
    if net in m then m[net] else 0
  }

  /** The stored counter after a verdict; an absent counter reads as 0. */
  function NextFail(value: nat, v: Verdict): nat {
    match v
    case Silent => value
    case Good => 0
    case Bad => if value + 1 >= MAX_FAIL_VALUE then 0 else value + 1
  }

  function Fired(value: nat, v: Verdict, net: nat): seq<Detection> {
    match v
    case Silent => []
    case Good => [Detection(net, true)]
    case Bad => if value + 1 >= MAX_FAIL_VALUE then [Detection(net, false)] else []
  }

  function Only(log: seq<Detection>, net: nat): seq<Detection> {
    if log == [] then []
    else Only(log[..|log| - 1], net) + if log[|log| - 1].netid == net then [log[|log| - 1]] else []
  }
}

module DnsHealth {
  import opened DnsSpec

  class NetDnsResultCallback {
    var netDnsResult: map<nat, Tally>
    var failCount: map<nat, nat>
    var detections: seq<Detection>   // NetDetectionForDnsHealth requests, oldest first

    ghost predicate Valid()
      reads this
    {
      forall net :: net in failCount ==> failCount[net] < MAX_FAIL_VALUE
    }

    constructor ()
      ensures Valid() && netDnsResult == map[] && failCount == map[] && detections == []
    {
      netDnsResult, failCount, detections := map[], map[], [];
    }

    /** The aggregation loop refines plain counting. */
    method IterateDnsReportResults(reports: seq<Report>, defaultNet: nat)
      requires netDnsResult == map[]
      modifies this`netDnsResult
      ensures Aggregated(netDnsResult, reports, defaultNet)
    {
      for i := 0 to |reports|
        invariant Aggregated(netDnsResult, reports[..i], defaultNet)
      {
        var it := reports[i];
        ghost var before := netDnsResult;
        AggregatedStep(before, reports, defaultNet, i);
        if !Accepted(it) {
          continue;
        }
        ZeroIsDefault(netDnsResult, reports[..i], defaultNet);
        var failed := if it.queryResult == 0 then 0 else 1;
        if it.netid !in netDnsResult && it.netid == 0 {
          if defaultNet !in netDnsResult {
            netDnsResult := netDnsResult[defaultNet := Tally(1, failed)];
          } else {
            var t := netDnsResult[defaultNet];
            netDnsResult := netDnsResult[defaultNet := Tally(t.total + 1, t.fail + failed)];
          }
        } else if it.netid !in netDnsResult {
          netDnsResult := netDnsResult[it.netid := Tally(1, failed)];
        } else {
          var t := netDnsResult[it.netid];
          netDnsResult := netDnsResult[it.netid := Tally(t.total + 1, t.fail + failed)];
        }
        assert netDnsResult == Counted(before, it, defaultNet);
      }
      assert reports[..|reports|] == reports;
    }

    method RequestNetDetection(netid: nat)
      requires Valid()
      modifies this`failCount, this`detections
      ensures Valid()
      ensures failCount == old(failCount)[netid := NextFail(Lookup(old(failCount), netid), Bad)]
      ensures detections == old(detections) + Fired(Lookup(old(failCount), netid), Bad, netid)
    {
      if netid !in failCount {
        failCount := failCount[netid := 1];
      } else {
        var failValue := failCount[netid] + 1;
        if failValue >= MAX_FAIL_VALUE {
          detections := detections + [Detection(netid, false)];
          failCount := failCount[netid := 0];
        } else {
          failCount := failCount[netid := failValue];
        }
      }
    }

    /** One network's turn in the batch: the body of the Iterate callback. */
    method Judge(net: nat, t: Tally)
      requires Valid()
      modifies this`failCount, this`detections
      ensures Valid()
      ensures var v := if Unhealthy(t) then Bad else Good;
              && failCount == old(failCount)[net := NextFail(Lookup(old(failCount), net), v)]
              && detections == old(detections) + Fired(Lookup(old(failCount), net), v, net)
    {
      if Unhealthy(t) {
        RequestNetDetection(net);
      } else {
        failCount := failCount[net := 0];
        detections := detections + [Detection(net, true)];
      }
    }

    method OnDnsResultReport(reports: seq<Report>, defaultNet: nat)
      requires Valid()
      modifies this
      ensures Valid()
      ensures forall net :: Lookup(failCount, net) ==
                NextFail(Lookup(old(failCount), net), VerdictOf(reports, defaultNet, net))
      ensures forall net :: Only(detections, net) == Only(old(detections), net) +
                Fired(Lookup(old(failCount), net), VerdictOf(reports, defaultNet, net), net)
    {
      ghost var fail0, log0 := failCount, detections;
      netDnsResult := map[];
      IterateDnsReportResults(reports, defaultNet);
      var rest := netDnsResult.Keys;
      while rest != {}
        invariant rest <= netDnsResult.Keys && Aggregated(netDnsResult, reports, defaultNet)
        invariant Valid()
        invariant forall net :: Judged(net, reports, defaultNet, rest, fail0, log0, failCount, detections)
        decreases rest
      {
        var net :| net in rest;
        ghost var fail1, log1 := failCount, detections;
        Judge(net, netDnsResult[net]);
        forall other ensures Judged(other, reports, defaultNet, rest - {net}, fail0, log0, failCount, detections) {
          assert Judged(other, reports, defaultNet, rest, fail0, log0, fail1, log1);
          assert Judged(net, reports, defaultNet, rest, fail0, log0, fail1, log1);
          OnlyFired(log1, Lookup(fail1, net), VerdictOf(reports, defaultNet, net), net, other);
        }
        rest := rest - {net};
      }
      forall net
        ensures Lookup(failCount, net) == NextFail(Lookup(fail0, net), VerdictOf(reports, defaultNet, net))
        ensures Only(detections, net) == Only(log0, net) +
                Fired(Lookup(fail0, net), VerdictOf(reports, defaultNet, net), net)
      {
        assert Judged(net, reports, defaultNet, rest, fail0, log0, failCount, detections);
      }
    }
  }

  /** The table with one accepted report counted in. */
  function Counted(m: map<nat, Tally>, r: Report, defaultNet: nat): map<nat, Tally> {
    var net := Target(r, defaultNet);
    var t := if net in m then m[net] else Tally(0, 0);
    m[net := Tally(t.total + 1, t.fail + if r.queryResult == 0 then 0 else 1)]
  }

  ghost predicate Aggregated(m: map<nat, Tally>, reports: seq<Report>, defaultNet: nat) {
    forall net ::
      && (net in m <==> Count(reports, defaultNet, net, false) > 0)
      && (net in m ==> m[net] == Tally(Count(reports, defaultNet, net, false), Count(reports, defaultNet, net, true)))
  }

  /** The networks still in `rest` are untouched; the others have had their verdict. */
  ghost predicate Judged(net: nat, reports: seq<Report>, defaultNet: nat, rest: set<nat>,
                         fail0: map<nat, nat>, log0: seq<Detection>, fail: map<nat, nat>, log: seq<Detection>) {
    var v := if net in rest then Silent else VerdictOf(reports, defaultNet, net);
    && Lookup(fail, net) == NextFail(Lookup(fail0, net), v)
    && Only(log, net) == Only(log0, net) + Fired(Lookup(fail0, net), v, net)
  }

  lemma {:induction false} CountSnoc(reports: seq<Report>, defaultNet: nat, i: nat, net: nat, f: bool)
    requires i < |reports|
    ensures Count(reports[..i + 1], defaultNet, net, f) == Count(reports[..i], defaultNet, net, f) +
              if Accepted(reports[i]) && Target(reports[i], defaultNet) == net && (f ==> reports[i].queryResult != 0) then 1 else 0
  {
    assert reports[..i + 1][..i] == reports[..i];
  }

  lemma {:induction false} FailAtMostTotal(reports: seq<Report>, defaultNet: nat, net: nat)
    ensures Count(reports, defaultNet, net, true) <= Count(reports, defaultNet, net, false)
  {
    if reports != [] {
      FailAtMostTotal(reports[..|reports| - 1], defaultNet, net);
    }
  }

  lemma {:induction false} AggregatedStep(m: map<nat, Tally>, reports: seq<Report>, defaultNet: nat, i: nat)
    requires i < |reports| && Aggregated(m, reports[..i], defaultNet)
    ensures Aggregated(if Accepted(reports[i]) then Counted(m, reports[i], defaultNet) else m, reports[..i + 1], defaultNet)
  {
    var m' := if Accepted(reports[i]) then Counted(m, reports[i], defaultNet) else m;
    forall net
      ensures net in m' <==> Count(reports[..i + 1], defaultNet, net, false) > 0
      ensures net in m' ==> m'[net] == Tally(Count(reports[..i + 1], defaultNet, net, false), Count(reports[..i + 1], defaultNet, net, true))
    {
      CountSnoc(reports, defaultNet, i, net, false);
      CountSnoc(reports, defaultNet, i, net, true);
      FailAtMostTotal(reports[..i], defaultNet, net);
    }
  }

  /** An entry for network 0 exists only when 0 is the default network itself. */
  lemma {:induction false} ZeroIsDefault(m: map<nat, Tally>, reports: seq<Report>, defaultNet: nat)
    requires Aggregated(m, reports, defaultNet)
    ensures 0 in m ==> defaultNet == 0
  {
    if defaultNet != 0 {
      NoZero(reports, defaultNet);
    }
  }

  lemma {:induction false} NoZero(reports: seq<Report>, defaultNet: nat)
    requires defaultNet != 0
    ensures Count(reports, defaultNet, 0, false) == 0
  {
    if reports != [] {
      NoZero(reports[..|reports| - 1], defaultNet);
    }
  }

  lemma {:induction false} OnlyFired(log: seq<Detection>, value: nat, v: Verdict, net: nat, other: nat)
    ensures Only(log + Fired(value, v, net), other) == Only(log, other) + if other == net then Fired(value, v, net) else []
  {
    var f := Fired(value, v, net);
    if f == [] {
      assert log + f == log;
    } else {
      assert (log + f)[..|log + f| - 1] == log;
    }
  }
}

/** The laws of the counters, within a batch and over whole histories. */
module DnsProofs {
  import opened DnsSpec
  import opened DnsHealth

  // ---------------------------------------------------------------------------------------
  // One batch: nothing is lost and the division is always defined.

  function AcceptedCount(reports: seq<Report>): nat {
    if reports == [] then 0
    else AcceptedCount(reports[..|reports| - 1]) + if Accepted(reports[|reports| - 1]) then 1 else 0
  }

  ghost function SumTotals(reports: seq<Report>, defaultNet: nat, nets: set<nat>): nat {
    if nets == {} then 0
    else
      var net :| net in nets;
      Count(reports, defaultNet, net, false) + SumTotals(reports, defaultNet, nets - {net})
  }

  lemma {:induction false} SumSnoc(reports: seq<Report>, defaultNet: nat, nets: set<nat>)
    requires reports != []
    ensures var r := reports[|reports| - 1];
            SumTotals(reports, defaultNet, nets) == SumTotals(reports[..|reports| - 1], defaultNet, nets) +
            if Accepted(r) && Target(r, defaultNet) in nets then 1 else 0
    decreases nets
  {
    if nets != {} {
      var net :| net in nets;
      SumSplit(reports, defaultNet, nets, net);
      SumSplit(reports[..|reports| - 1], defaultNet, nets, net);
      SumSnoc(reports, defaultNet, nets - {net});
    }
  }

  lemma {:induction false} SumSplit(reports: seq<Report>, defaultNet: nat, nets: set<nat>, net: nat)
    requires net in nets
    ensures SumTotals(reports, defaultNet, nets) ==
            Count(reports, defaultNet, net, false) + SumTotals(reports, defaultNet, nets - {net})
    decreases nets
  {
    var pick :| pick in nets && SumTotals(reports, defaultNet, nets) ==
      Count(reports, defaultNet, pick, false) + SumTotals(reports, defaultNet, nets - {pick});
    if pick != net {
      SumSplit(reports, defaultNet, nets - {pick}, net);
      SumSplit(reports, defaultNet, nets - {net}, pick);
      assert nets - {pick} - {net} == nets - {net} - {pick};
    }
  }

  lemma {:induction false} NoReportsSum(defaultNet: nat, nets: set<nat>)
    ensures SumTotals([], defaultNet, nets) == 0
    decreases nets
  {
    if nets == {} {
      assert SumTotals([], defaultNet, {}) == 0;
    } else {
      var net :| net in nets;
      SumSplit([], defaultNet, nets, net);
      NoReportsSum(defaultNet, nets - {net});
    }
  }

  lemma {:induction false} TargetsCovered(reports: seq<Report>, defaultNet: nat, nets: set<nat>)
    requires forall i :: 0 <= i < |reports| && Accepted(reports[i]) ==> Target(reports[i], defaultNet) in nets
    ensures SumTotals(reports, defaultNet, nets) == AcceptedCount(reports)
  {
    if reports == [] {
      NoReportsSum(defaultNet, nets);
    } else {
      TargetsCovered(reports[..|reports| - 1], defaultNet, nets);
      SumSnoc(reports, defaultNet, nets);
    }
  }

  lemma {:induction false} HeardIsCounted(reports: seq<Report>, defaultNet: nat, i: nat)
    requires i < |reports| && Accepted(reports[i])
    ensures Count(reports, defaultNet, Target(reports[i], defaultNet), false) > 0
  {
    if i < |reports| - 1 {
      HeardIsCounted(reports[..|reports| - 1], defaultNet, i);
    }
  }

  /** The sum of the table's own totals. */
  ghost function TableTotal(m: map<nat, Tally>): nat {
    SumOver(m, m.Keys)
  }

  ghost function SumOver(m: map<nat, Tally>, nets: set<nat>): nat
    requires nets <= m.Keys
  {
    if nets == {} then 0
    else
      var net :| net in nets;
      m[net].total + SumOver(m, nets - {net})
  }

  lemma {:induction false} SumOverIsCounting(m: map<nat, Tally>, reports: seq<Report>, defaultNet: nat, nets: set<nat>)
    requires Aggregated(m, reports, defaultNet) && nets <= m.Keys
    ensures SumOver(m, nets) == SumTotals(reports, defaultNet, nets)
    decreases nets
  {
    if nets == {} {
      assert SumTotals(reports, defaultNet, {}) == 0;
    } else {
      var net :| net in nets && SumOver(m, nets) == m[net].total + SumOver(m, nets - {net});
      SumOverIsCounting(m, reports, defaultNet, nets - {net});
      SumSplit(reports, defaultNet, nets, net);
    }
  }

  /** The aggregated table: totals add up to the accepted reports, no total is zero, and no
      network failed more often than it reported. */
  lemma {:induction false} TableIsConsistent(m: map<nat, Tally>, reports: seq<Report>, defaultNet: nat)
    requires Aggregated(m, reports, defaultNet)
    ensures TableTotal(m) == AcceptedCount(reports)
    ensures forall net :: net in m ==> m[net].total > 0 && m[net].fail <= m[net].total
  {
    forall i | 0 <= i < |reports| && Accepted(reports[i])
      ensures Target(reports[i], defaultNet) in m.Keys
    {
      HeardIsCounted(reports, defaultNet, i);
    }
    TargetsCovered(reports, defaultNet, m.Keys);
    SumOverIsCounting(m, reports, defaultNet, m.Keys);
    forall net | net in m ensures m[net].fail <= m[net].total {
      FailAtMostTotal(reports, defaultNet, net);
    }
  }

  /** The integer test is the program's: more than 0.6 of the reports failed. */
  lemma {:induction false} UnhealthyIsFailRate(t: Tally)
    requires t.total > 0
    ensures Unhealthy(t) <==> t.fail as real / t.total as real > 0.6
  {
    var f, n := t.fail as real, t.total as real;
    var q := f / n;
    assert q * n == f;
    if q > 0.6 {
      ScaledUp(0.6, q, n);
    } else {
      ScaledUp(q, 0.6, n);
    }
    assert 5.0 * f > 3.0 * n <==> f > 0.6 * n;
    assert 5.0 * f == (5 * t.fail) as real && 3.0 * n == (3 * t.total) as real;
  }

  /** What a batch says of a network: nothing without a report, else that more than 0.6 of them failed. */
  lemma {:induction false} VerdictMeans(reports: seq<Report>, defaultNet: nat, net: nat)
    ensures var total, fail := Count(reports, defaultNet, net, false), Count(reports, defaultNet, net, true);
            var v := VerdictOf(reports, defaultNet, net);
            && (v == Silent <==> total == 0)
            && (v == Bad <==> total > 0 && fail as real / total as real > 0.6)
  {
    var total, fail := Count(reports, defaultNet, net, false), Count(reports, defaultNet, net, true);
    if total > 0 {
      UnhealthyIsFailRate(Tally(total, fail));
    }
  }

  lemma {:induction false} ScaledUp(a: real, b: real, n: real)
    requires n > 0.0
    ensures a < b ==> a * n < b * n
    ensures a <= b ==> a * n <= b * n
  {
  }

  /** What a batch says of a network, on its reports alone: those that are not refused as invalid
      (-1101), of this network or, for the default network, of network 0. */
  lemma {:induction false} ReportCounts(reports: seq<Report>, defaultNet: nat, net: nat)
    requires reports != []
    ensures var r, init := reports[|reports| - 1], reports[..|reports| - 1];
            var mine := r.queryResult != -1101 && ((r.netid == net && net != 0) || (r.netid == 0 && net == defaultNet));
            && Count(reports, defaultNet, net, false) == Count(init, defaultNet, net, false) + (if mine then 1 else 0)
            && Count(reports, defaultNet, net, true) ==
               Count(init, defaultNet, net, true) + if mine && r.queryResult != 0 then 1 else 0
  {
  }

  // ---------------------------------------------------------------------------------------
  // Histories

  /** The unhealthy batches since the last healthy one, batches that do not mention the network aside. */
  function TrailingRun(h: seq<Verdict>): nat {
    if h == [] then 0
    else
      match h[|h| - 1]
      case Silent => TrailingRun(h[..|h| - 1])
      case Good => 0
      case Bad => TrailingRun(h[..|h| - 1]) + 1
  }

  function ExtendRuns(runs: seq<nat>, v: Verdict): (runs': seq<nat>)
    requires runs != []
    ensures runs' != []
  {
    match v
    case Silent => runs
    case Good => runs + [0]
    case Bad => runs[|runs| - 1 := runs[|runs| - 1] + 1]
  }

  /** The lengths of the unhealthy runs, cut at the healthy batches. */
  function Runs(h: seq<Verdict>): (runs: seq<nat>)
    ensures runs != []
  {
    if h == [] then [0] else ExtendRuns(Runs(h[..|h| - 1]), h[|h| - 1])
  }

  function SumThirds(runs: seq<nat>): nat {
    if runs == [] then 0 else SumThirds(runs[..|runs| - 1]) + runs[|runs| - 1] / 3
  }

  function FailAfter(h: seq<Verdict>): nat {
    if h == [] then 0 else NextFail(FailAfter(h[..|h| - 1]), h[|h| - 1])
  }

  function FiredOver(h: seq<Verdict>, net: nat): seq<Detection> {
    if h == [] then []
    else FiredOver(h[..|h| - 1], net) + Fired(FailAfter(h[..|h| - 1]), h[|h| - 1], net)
  }

  function Failures(log: seq<Detection>): nat {
    if log == [] then 0 else Failures(log[..|log| - 1]) + if log[|log| - 1].healthy then 0 else 1
  }

  lemma {:induction false} FailuresConcat(a: seq<Detection>, b: seq<Detection>)
    requires |b| <= 1
    ensures Failures(a + b) == Failures(a) + Failures(b)
  {
    if b == [] {
      assert a + b == a;
    } else {
      assert (a + b)[..|a + b| - 1] == a && b[..0] == [];
    }
  }

  lemma {:induction false} TrailingIsLastRun(h: seq<Verdict>)
    ensures Runs(h)[|Runs(h)| - 1] == TrailingRun(h)
  {
    if h != [] {
      TrailingIsLastRun(h[..|h| - 1]);
    }
  }

  /** The counter is the trailing run modulo 3. */
  lemma {:induction false} CounterIsTrailingRun(h: seq<Verdict>)
    ensures FailAfter(h) == TrailingRun(h) % 3
  {
    if h != [] {
      CounterIsTrailingRun(h[..|h| - 1]);
    }
  }

  /** The detections asked for are the whole thirds of all the unhealthy runs. */
  lemma {:induction false} DetectionsAreThirds(h: seq<Verdict>, net: nat)
    ensures Failures(FiredOver(h, net)) == SumThirds(Runs(h))
  {
    if h == [] {
      assert Runs(h)[..0] == [];
    } else {
      var n := |h| - 1;
      DetectionsAreThirds(h[..n], net);
      CounterIsTrailingRun(h[..n]);
      TrailingIsLastRun(h[..n]);
      FailuresConcat(FiredOver(h[..n], net), Fired(FailAfter(h[..n]), h[n], net));
      ThirdsSnoc(Runs(h[..n]), h[n], net);
    }
  }

  /** One verdict extends the runs and fires exactly when the last run completes a third. */
  lemma {:induction false} ThirdsSnoc(runs: seq<nat>, v: Verdict, net: nat)
    requires runs != []
    ensures SumThirds(ExtendRuns(runs, v)) == SumThirds(runs) + Failures(Fired(runs[|runs| - 1] % 3, v, net))
  {
    var k := |runs| - 1;
    var f := Fired(runs[k] % 3, v, net);
    assert f != [] ==> f[..0] == [];
    match v
    case Silent =>
    case Good => assert (runs + [0])[..|runs|] == runs;
    case Bad => assert runs[k := runs[k] + 1][..k] == runs[..k];
  }

  /** Health reports. */
  function Healthy(log: seq<Detection>): nat {
    if log == [] then 0 else Healthy(log[..|log| - 1]) + if log[|log| - 1].healthy then 1 else 0
  }

  function GoodBatches(h: seq<Verdict>): nat {
    if h == [] then 0 else GoodBatches(h[..|h| - 1]) + if h[|h| - 1] == Good then 1 else 0
  }

  /** A network is reported healthy as often as it has a healthy batch. */
  lemma {:induction false} HealthReports(h: seq<Verdict>, net: nat)
    ensures Healthy(FiredOver(h, net)) == GoodBatches(h)
  {
    if h != [] {
      var n := |h| - 1;
      HealthReports(h[..n], net);
      var log, f := FiredOver(h[..n], net), Fired(FailAfter(h[..n]), h[n], net);
      if f == [] {
        assert log + f == log;
      } else {
        assert (log + f)[..|log + f| - 1] == log;
      }
    }
  }

  datatype Batch = Batch(reports: seq<Report>, defaultNet: nat)

  function History(batches: seq<Batch>, net: nat): seq<Verdict> {
    seq(|batches|, i requires 0 <= i < |batches| => VerdictOf(batches[i].reports, batches[i].defaultNet, net))
  }

  lemma {:induction false} HistorySnoc(batches: seq<Batch>, i: nat, net: nat)
    requires i < |batches|
    ensures var v := VerdictOf(batches[i].reports, batches[i].defaultNet, net);
            var h, h' := History(batches[..i], net), History(batches[..i + 1], net);
            && FailAfter(h') == NextFail(FailAfter(h), v)
            && FiredOver(h', net) == FiredOver(h, net) + Fired(FailAfter(h), v, net)
  {
    var h, h' := History(batches[..i], net), History(batches[..i + 1], net);
    assert h' == h + [VerdictOf(batches[i].reports, batches[i].defaultNet, net)];
    assert h'[..i] == h;
  }

  /** The callback after the first `i` batches. */
  ghost predicate InStep(failCount: map<nat, nat>, detections: seq<Detection>, batches: seq<Batch>, i: nat, net: nat)
    requires i <= |batches|
  {
    && Lookup(failCount, net) == FailAfter(History(batches[..i], net))
    && Only(detections, net) == FiredOver(History(batches[..i], net), net)
  }

  /** Over any sequence of batches, for every network at once. */
  method ReportAll(callback: NetDnsResultCallback, batches: seq<Batch>)
    requires callback.Valid() && callback.failCount == map[] && callback.detections == []
    modifies callback
    ensures forall net :: Lookup(callback.failCount, net) == TrailingRun(History(batches, net)) % 3
    ensures forall net :: Failures(Only(callback.detections, net)) == SumThirds(Runs(History(batches, net)))
    ensures forall net :: Healthy(Only(callback.detections, net)) == GoodBatches(History(batches, net))
  {
    for i := 0 to |batches|
      invariant callback.Valid()
      invariant forall net :: InStep(callback.failCount, callback.detections, batches, i, net)
    {
      ghost var f, d := callback.failCount, callback.detections;
      callback.OnDnsResultReport(batches[i].reports, batches[i].defaultNet);
      ghost var next := i + 1;
      forall net ensures InStep(callback.failCount, callback.detections, batches, next, net) {
        assert InStep(f, d, batches, i, net);
        HistorySnoc(batches, i, net);
      }
    }
    assert batches[..|batches|] == batches;
    forall net
      ensures Lookup(callback.failCount, net) == TrailingRun(History(batches, net)) % 3
      ensures Failures(Only(callback.detections, net)) == SumThirds(Runs(History(batches, net)))
      ensures Healthy(Only(callback.detections, net)) == GoodBatches(History(batches, net))
    {
      assert InStep(callback.failCount, callback.detections, batches, |batches|, net);
      CounterIsTrailingRun(History(batches, net));
      DetectionsAreThirds(History(batches, net), net);
      HealthReports(History(batches, net), net);
    }
  }
}
