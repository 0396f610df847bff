/** The gossip health monitor: one classified, hash-chained report per epoch. */
module GossipHealth {
  import opened Wrappers
  import opened Bytes
  import opened HashChain

  datatype HealthClass = Green | Yellow | Red
  {
    function AsByte(): Byte {
      match this
      case Green => 0
      case Yellow => 1
      case Red => 2
    }
  }

  datatype HealthInput = HealthInput(
    epoch: U64, checksumFails: U32, epochRegressions: U32, delivered: U64, missed: U64,
    lagging: U32, diverged: U32, admitted: U32)

  datatype HealthReport = HealthReport(
    input: HealthInput, healthClass: HealthClass, reportHash: Digest, prevHash: Digest)

  function Classify(i: HealthInput): HealthClass {
    if i.diverged >= 1 || i.checksumFails >= 3 || (i.admitted > 0 && i.delivered == 0) then Red
    else if i.lagging >= 1 || i.epochRegressions >= 1 || i.missed >= 1 || i.checksumFails >= 1 then Yellow
    else Green
  }

  /** Green means that nothing at all is wrong. */
  lemma GreenExactly(i: HealthInput)
    ensures Classify(i) == Green <==>
      i.diverged == 0 && i.checksumFails == 0 && i.lagging == 0 && i.epochRegressions == 0 && i.missed == 0
      && (i.admitted == 0 || i.delivered > 0)
  {
  }

  /** `j` is at least as bad as `i` in every input. */
  predicate NoBetter(i: HealthInput, j: HealthInput) {
    && i.checksumFails <= j.checksumFails && i.epochRegressions <= j.epochRegressions
    && i.delivered >= j.delivered && i.missed <= j.missed && i.lagging <= j.lagging
    && i.diverged <= j.diverged && i.admitted <= j.admitted
  }

  /** Worse inputs never get a better class. */
  lemma ClassifyIsMonotone(i: HealthInput, j: HealthInput)
    requires NoBetter(i, j)
    ensures Classify(i).AsByte() <= Classify(j).AsByte()
  {
  }

  function ReportBody(r: HealthReport): ByteString {
    var i := r.input;
    Be8(i.epoch) + [r.healthClass.AsByte()] + Be4(i.checksumFails) + Be4(i.epochRegressions)
    + Be8(i.delivered) + Be8(i.missed) + Be4(i.lagging) + Be4(i.diverged) + Be4(i.admitted)
  }

  function ReportLink(r: HealthReport): Link {
    Link(r.prevHash, ReportBody(r), r.reportHash)
  }

  function ReportLinks(rs: seq<HealthReport>): (ls: seq<Link>)
    ensures |ls| == |rs|
  {
    seq(|rs|, i requires 0 <= i < |rs| => ReportLink(rs[i]))
  }

  lemma ReportLinkInjective(a: HealthReport, b: HealthReport)
    requires ReportLink(a) == ReportLink(b)
    ensures a == b
  {
    var i, j := a.input, b.input;
    var a1, b1 := Be8(i.epoch) + [a.healthClass.AsByte()], Be8(j.epoch) + [b.healthClass.AsByte()];
    var a2, b2 := a1 + Be4(i.checksumFails), b1 + Be4(j.checksumFails);
    var a3, b3 := a2 + Be4(i.epochRegressions), b2 + Be4(j.epochRegressions);
    var a4, b4 := a3 + Be8(i.delivered), b3 + Be8(j.delivered);
    var a5, b5 := a4 + Be8(i.missed), b4 + Be8(j.missed);
    var a6, b6 := a5 + Be4(i.lagging), b5 + Be4(j.lagging);
    var a7, b7 := a6 + Be4(i.diverged), b6 + Be4(j.diverged);
    SplitEqual(a7, b7, Be4(i.admitted), Be4(j.admitted));
    SplitEqual(a6, b6, Be4(i.diverged), Be4(j.diverged));
    SplitEqual(a5, b5, Be4(i.lagging), Be4(j.lagging));
    SplitEqual(a4, b4, Be8(i.missed), Be8(j.missed));
    SplitEqual(a3, b3, Be8(i.delivered), Be8(j.delivered));
    SplitEqual(a2, b2, Be4(i.epochRegressions), Be4(j.epochRegressions));
    SplitEqual(a1, b1, Be4(i.checksumFails), Be4(j.checksumFails));
    SplitEqual(Be8(i.epoch), Be8(j.epoch), [a.healthClass.AsByte()], [b.healthClass.AsByte()]);
    assert a.healthClass.AsByte() == [a.healthClass.AsByte()][0];
    Be8Injective(i.epoch, j.epoch);
    Be8Injective(i.delivered, j.delivered);
    Be8Injective(i.missed, j.missed);
    Be4Injective(i.checksumFails, j.checksumFails);
    Be4Injective(i.epochRegressions, j.epochRegressions);
    Be4Injective(i.lagging, j.lagging);
    Be4Injective(i.diverged, j.diverged);
    Be4Injective(i.admitted, j.admitted);
  }

  lemma ReportLinksInjective(a: seq<HealthReport>, b: seq<HealthReport>)
    requires ReportLinks(a) == ReportLinks(b)
    ensures a == b
  {
    assert |a| == |b|;
    forall i | 0 <= i < |a|
      ensures a[i] == b[i]
    {
      assert ReportLinks(a)[i] == ReportLinks(b)[i];
      ReportLinkInjective(a[i], b[i]);
    }
  }

  /** What the monitor's `verify_chain` accepts. */
  predicate MonitorHolds(sha: Hash, reports: seq<HealthReport>) {
    Linked(sha, Genesis(), ReportLinks(reports))
  }

  /** What verification accepts of a stretch of reports that need not start at genesis. */
  predicate SegmentHolds(sha: Hash, reports: seq<HealthReport>) {
    reports != [] ==> Linked(sha, reports[0].prevHash, ReportLinks(reports))
  }

  /** The report a monitor appends. */
  function NextReport(sha: Hash, reports: seq<HealthReport>, input: HealthInput): HealthReport {
    var prev := Tip(Genesis(), ReportLinks(reports));
    var report := HealthReport(input, Classify(input), Genesis(), prev);
    report.(reportHash := sha(Preimage(ReportLink(report))))
  }

  lemma NextReportContinues(sha: Hash, reports: seq<HealthReport>, input: HealthInput)
    ensures Continues(sha, ReportLinks(reports), ReportLink(NextReport(sha, reports, input)))
  {
    var report := NextReport(sha, reports, input);
    assert ReportBody(report) == ReportBody(report.(reportHash := Genesis()));
  }

  lemma ReportsGrow(sha: Hash, reports: seq<HealthReport>, input: HealthInput)
    ensures var report := NextReport(sha, reports, input);
      && Continues(sha, ReportLinks(reports), ReportLink(report))
      && (MonitorHolds(sha, reports + [report]) <==> MonitorHolds(sha, reports))
  {
    NextReportContinues(sha, reports, input);
    var report := NextReport(sha, reports, input);
    LinkedGrows(sha, Genesis(), ReportLinks(reports), ReportLink(report));
    assert ReportLinks(reports + [report]) == ReportLinks(reports) + [ReportLink(report)];
  }

  /** The chain of a monitor that was given the inputs in order. */
  function Monitored(sha: Hash, inputs: seq<HealthInput>): (reports: seq<HealthReport>)
    ensures |reports| == |inputs|
  {
    if inputs == [] then []
    else
      var reports := Monitored(sha, inputs[..|inputs| - 1]);
      reports + [NextReport(sha, reports, inputs[|inputs| - 1])]
  }

  /** It verifies and reports every input under its class. */
  lemma {:induction false} MonitoredHolds(sha: Hash, inputs: seq<HealthInput>)
    ensures MonitorHolds(sha, Monitored(sha, inputs))
    ensures forall i :: 0 <= i < |inputs| ==>
      Monitored(sha, inputs)[i].input == inputs[i] && Monitored(sha, inputs)[i].healthClass == Classify(inputs[i])
  {
    if inputs != [] {
      var front := inputs[..|inputs| - 1];
      MonitoredHolds(sha, front);
      ReportsGrow(sha, Monitored(sha, front), inputs[|inputs| - 1]);
    }
  }

  class CompactionGossipHealthMonitor {
    const sha: Hash
    var reports: seq<HealthReport>

    constructor (sha: Hash)
      ensures this.sha == sha && reports == []
    {
      this.sha := sha;
      reports := [];
    }

    method Record(input: HealthInput) returns (report: HealthReport)
      modifies this`reports
      ensures reports == old(reports) + [report]
      ensures report == NextReport(sha, old(reports), input)
      ensures report.input == input && report.healthClass == Classify(input)
      ensures Continues(sha, ReportLinks(old(reports)), ReportLink(report))
      ensures MonitorHolds(sha, reports) <==> MonitorHolds(sha, old(reports))
    {
      var prev := if reports == [] then Genesis() else reports[|reports| - 1].reportHash;
      report := HealthReport(input, Classify(input), Genesis(), prev);
      report := report.(reportHash := sha(Preimage(ReportLink(report))));
      assert report == NextReport(sha, reports, input);
      ReportsGrow(sha, reports, input);
      reports := reports + [report];
    }

    method VerifyChain() returns (valid: bool, broken: Option<nat>)
      ensures valid <==> MonitorHolds(sha, reports)
      ensures valid ==> broken == None
      ensures !valid ==> broken.Some? && FirstBroken(sha, Genesis(), ReportLinks(reports), broken.value)
    {
      valid, broken := VerifyLinks(sha, Genesis(), ReportLinks(reports));
    }
  }
}
