/** The epoch health pipeline wired together: every epoch's health vector feeds the momentum
    window, both feed the report, the report feeds alerts, service level, comparator, trend,
    planner and dashboard, and the ledger binds the hashes of all of them. Every log is a
    function of the inputs; this file says which, and that the wired objects keep to it. */
module EpochPipeline {
  import opened Bytes
  import opened HashChain
  import opened HealthAggregator
  import opened MomentumTracker
  import opened EpochReport
  import opened AlertClassifier
  import opened SlaTracker
  import opened EpochComparator
  import opened CapacityPlanner
  import opened EpochLedger
  import TrendAnalyzer
  import Dashboard

  // ---------------------------------------------------------------- from inputs to reports

  /** The inputs of one epoch. */
  datatype Observation = Observation(
    epoch: U64, chainsValid: bool, totalPruned: U64, cond: OverallCondition,
    spsfPct: Byte, healthPct: Byte, resPct: Byte)

  function GradeOf(o: Observation): Grade {
    ClassifyGrade(o.chainsValid, o.totalPruned)
  }

  function JointOf(o: Observation): JointCondition {
    FromAxes(GradeOf(o), o.cond)
  }

  function VectorOf(o: Observation): HealthVector {
    HealthVector(o.epoch, GradeOf(o), o.cond, JointOf(o), o.totalPruned, o.chainsValid)
  }

  function Vectors(os: seq<Observation>): (vs: seq<HealthVector>)
    ensures |vs| == |os|
  {
    seq(|os|, i requires 0 <= i < |os| => VectorOf(os[i]))
  }

  function ObservedBy(os: seq<Observation>): (xs: seq<Observed>)
    ensures |xs| == |os|
  {
    seq(|os|, i requires 0 <= i < |os| => Observed(os[i].epoch, JointOf(os[i])))
  }

  /** The report of epoch `n` of a history. */
  function ReportAt(os: seq<Observation>, n: nat): Report
    requires n < |os|
  {
    var o, m := os[n], RecordAt(ObservedBy(os), n);
    Report(o.epoch, JointOf(o), GradeOf(o), o.totalPruned, o.chainsValid,
           m.direction, m.momentum, m.windowSize, o.spsfPct, o.healthPct, o.resPct)
  }

  function Reports(os: seq<Observation>): (rs: seq<Report>)
    ensures |rs| == |os|
  {
    seq(|os|, i requires 0 <= i < |os| => ReportAt(os, i))
  }

  lemma ReportsGrow(os: seq<Observation>, o: Observation)
    ensures Vectors(os + [o]) == Vectors(os) + [VectorOf(o)]
    ensures ObservedBy(os + [o]) == ObservedBy(os) + [Observed(o.epoch, JointOf(o))]
    ensures Reports(os + [o]) == Reports(os) + [ReportAt(os + [o], |os|)]
  {
    var xs, ys := ObservedBy(os), ObservedBy(os + [o]);
    forall i | 0 <= i < |os|
      ensures ReportAt(os + [o], i) == ReportAt(os, i)
    {
      var s := WindowStart(i, MOMENTUM_WINDOW);
      assert Scores(ys)[i] == Scores(xs)[i] && Scores(ys)[s] == Scores(xs)[s];
    }
  }

  // ---------------------------------------------------------------- from reports to verdicts

  function SlaAt(rs: seq<Report>, n: nat): SlaRecord
    requires n < |rs|
  {
    SlaOf(AlertAt(rs, n), rs[n])
  }

  function SlasOf(rs: seq<Report>): (ss: seq<SlaRecord>)
    ensures |ss| == |rs|
  {
    seq(|rs|, i requires 0 <= i < |rs| => SlaAt(rs, i))
  }

  /** The frame of the last epoch of a history; a first epoch has no trend and hence no frame. */
  function LastFrame(rs: seq<Report>): Dashboard.DashboardFrame
    requires |rs| >= 2
  {
    var n := |rs| - 1;
    var alert, trend, sla := AlertAt(rs, n), TrendAnalyzer.TrendAt(DeltasOf(rs), n - 1), SlaAt(rs, n);
    Dashboard.DashboardFrame(rs[n].epoch, Dashboard.Condition(alert.level, trend.trend, sla.compliant),
                             alert.level, trend.trend, sla.compliant, Rate(SlasOf(rs)),
                             trend.improvements, trend.degradations)
  }

  lemma FrameFrom(rs: seq<Report>, alert: AlertRecord, service: SlaRecord, trend: TrendAnalyzer.TrendRecord, rate: U32)
    requires |rs| >= 2 && alert == AlertAt(rs, |rs| - 1) && service == SlaAt(rs, |rs| - 1) && rate == Rate(SlasOf(rs))
    requires trend == TrendAnalyzer.TrendAt(DeltasOf(rs), |rs| - 2)
    ensures LastFrame(rs)
         == Dashboard.DashboardFrame(rs[|rs| - 1].epoch,
                                     Dashboard.Condition(alert.level, trend.trend, service.compliant), alert.level,
                                     trend.trend, service.compliant, rate, trend.improvements, trend.degradations)
  {
  }

  /** The frames in the order in which they are recorded, each that of the history up to it. */
  function FramesOf(rs: seq<Report>): (fs: seq<Dashboard.DashboardFrame>)
    ensures |fs| == if rs == [] then 0 else |rs| - 1
  {
    if |rs| <= 1 then [] else FramesOf(rs[..|rs| - 1]) + [LastFrame(rs)]
  }

  lemma SlasGrow(rs: seq<Report>, r: Report)
    ensures SlasOf(rs + [r]) == SlasOf(rs) + [SlaAt(rs + [r], |rs|)]
  {
    forall i | 0 <= i < |rs|
      ensures SlaAt(rs + [r], i) == SlaAt(rs, i)
    {
      assert (rs + [r])[..i + 1] == rs[..i + 1];
    }
  }

  lemma DeltasGrow(rs: seq<Report>, r: Report)
    requires rs != []
    ensures DeltasOf(rs + [r]) == DeltasOf(rs) + [DeltaOf(rs[|rs| - 1], r)]
  {
    var ds := DeltasOf(rs + [r]);
    forall i | 0 <= i < |rs| - 1
      ensures ds[i] == DeltasOf(rs)[i]
    {
      assert (rs + [r])[i] == rs[i] && (rs + [r])[i + 1] == rs[i + 1];
    }
    assert ds[|rs| - 1] == DeltaOf(rs[|rs| - 1], r);
    assert ds == ds[..|rs| - 1] + [ds[|rs| - 1]];
  }

  lemma FramesGrow(rs: seq<Report>, r: Report)
    requires rs != []
    ensures FramesOf(rs + [r]) == FramesOf(rs) + [LastFrame(rs + [r])]
  {
    assert (rs + [r])[..|rs|] == rs;
  }

  /** A single epoch has neither delta nor frame. */
  lemma FirstEpoch(r: Report)
    ensures DeltasOf([r]) == [] == DeltasOf([]) && FramesOf([r]) == [] == FramesOf([])
  {
  }

  // ---------------------------------------------------------------- the ledger

  /** The last hashes of the logs after a history of reports; genesis for the logs that have no
      record yet. */
  function HashesAfter(sha: Hash, rs: seq<Report>): EpochHashes {
    EpochHashes(
      LastHash(ChainOf(sha, ReportBody, rs)),
      LastHash(ChainOf(sha, AlertBody, AlertsOf(rs))),
      LastHash(ChainOf(sha, SlaBody, SlasOf(rs))),
      LastHash(ChainOf(sha, ProjectionBody, ProjectionsOf(rs))),
      LastHash(ChainOf(sha, DeltaBody, DeltasOf(rs))),
      LastHash(ChainOf(sha, TrendAnalyzer.TrendBody, TrendAnalyzer.TrendsOf(DeltasOf(rs)))),
      LastHash(ChainOf(sha, Dashboard.FrameBody, FramesOf(rs))))
  }

  /** The ledger of a history of reports: one entry per epoch. */
  function LedgerOf(sha: Hash, rs: seq<Report>): (es: seq<LedgerEntry>)
    ensures |es| == |rs|
  {
    if rs == [] then []
    else
      var es := LedgerOf(sha, rs[..|rs| - 1]);
      es + [NextEntry(sha, es, rs[|rs| - 1].epoch, HashesAfter(sha, rs))]
  }

  lemma LedgerGrows(sha: Hash, rs: seq<Report>, r: Report)
    ensures LedgerOf(sha, rs + [r])
         == LedgerOf(sha, rs) + [NextEntry(sha, LedgerOf(sha, rs), r.epoch, HashesAfter(sha, rs + [r]))]
  {
    assert (rs + [r])[..|rs|] == rs;
  }

  /** Nothing has been recorded of an empty history. */
  lemma EmptyHistory(sha: Hash)
    ensures Vectors([]) == [] && ObservedBy([]) == [] && Reports([]) == []
    ensures SlasOf([]) == [] && DeltasOf([]) == [] && FramesOf([]) == [] && LedgerOf(sha, []) == []
    ensures ChainOf(sha, VectorBody, []) == [] && ChainOf(sha, ReportBody, []) == []
    ensures ChainOf(sha, SlaBody, []) == [] && ChainOf(sha, DeltaBody, []) == []
    ensures ChainOf(sha, Dashboard.FrameBody, []) == []
  {
  }

  // ---------------------------------------------------------------- the wired objects

  class CompactionPipeline {
    const sha: Hash
    const health: CompactionHealthLog
    const momentum: CompactionMomentumLog
    const reports: CompactionEpochReportLog
    const alerts: CompactionAlertLog
    const sla: SlaTrackerLog
    const comparator: EpochComparatorLog
    const trends: TrendAnalyzer.TrendAnalyzerLog
    const dashboard: Dashboard.CompactionDashboard
    const planner: CapacityPlannerLog
    const ledger: CompactionEpochLedger

    ghost predicate VectorsHold(os: seq<Observation>)
      reads health
    {
      health.sha == sha && health.vectors == ChainOf(sha, VectorBody, Vectors(os))
    }

    ghost predicate MomentumHolds(os: seq<Observation>)
      reads momentum
    {
      momentum.sha == sha && momentum.Valid() && momentum.observed == ObservedBy(os)
    }

    ghost predicate ReportsHold(rs: seq<Report>)
      reads reports
    {
      reports.sha == sha && reports.reports == ChainOf(sha, ReportBody, rs)
    }

    ghost predicate AlertsHold(rs: seq<Report>)
      reads alerts
    {
      alerts.sha == sha && alerts.Valid() && alerts.seen == rs
    }

    ghost predicate SlaHolds(rs: seq<Report>)
      reads sla
    {
      sla.sha == sha && sla.records == ChainOf(sha, SlaBody, SlasOf(rs))
    }

    ghost predicate TrendsHold(rs: seq<Report>)
      reads comparator, trends
    {
      && comparator.sha == sha && comparator.deltas == ChainOf(sha, DeltaBody, DeltasOf(rs))
      && trends.sha == sha && trends.Valid() && trends.seen == DeltasOf(rs)
    }

    ghost predicate FramesHold(rs: seq<Report>)
      reads dashboard
    {
      dashboard.sha == sha && dashboard.frames == ChainOf(sha, Dashboard.FrameBody, FramesOf(rs))
    }

    ghost predicate PlanHolds(rs: seq<Report>)
      reads planner
    {
      planner.sha == sha && planner.Valid() && planner.seen == rs
    }

    ghost predicate LedgerHolds(rs: seq<Report>)
      reads ledger
    {
      ledger.sha == sha && ledger.entries == LedgerOf(sha, rs)
    }

    /** The logs that feed the report. */
    ghost predicate InputsHold(os: seq<Observation>)
      reads health, momentum
    {
      VectorsHold(os) && MomentumHolds(os)
    }

    /** The logs that the report feeds. */
    ghost predicate VerdictsHold(rs: seq<Report>)
      reads alerts, sla, comparator, trends, dashboard, planner
    {
      AlertsHold(rs) && SlaHolds(rs) && TrendsHold(rs) && FramesHold(rs) && PlanHolds(rs)
    }

    /** Every log holds what a history and its reports determine, hashes included. */
    ghost predicate Holds(os: seq<Observation>, rs: seq<Report>)
      reads health, momentum, reports, alerts, sla, comparator, trends, dashboard, planner, ledger
    {
      InputsHold(os) && ReportsHold(rs) && VerdictsHold(rs) && LedgerHolds(rs)
    }

    ghost predicate HoldsHistory(os: seq<Observation>)
      reads health, momentum, reports, alerts, sla, comparator, trends, dashboard, planner, ledger
    {
      Holds(os, Reports(os))
    }

    constructor (sha: Hash)
      ensures this.sha == sha && HoldsHistory([])
      ensures fresh(health) && fresh(momentum) && fresh(reports) && fresh(alerts) && fresh(sla)
      ensures fresh(comparator) && fresh(trends) && fresh(dashboard) && fresh(planner) && fresh(ledger)
    {
      this.sha := sha;
      health := new CompactionHealthLog(sha);
      momentum := new CompactionMomentumLog(sha);
      reports := new CompactionEpochReportLog(sha);
      alerts := new CompactionAlertLog(sha);
      sla := new SlaTrackerLog(sha);
      comparator := new EpochComparatorLog(sha);
      trends := new TrendAnalyzer.TrendAnalyzerLog(sha);
      dashboard := new Dashboard.CompactionDashboard(sha);
      planner := new CapacityPlannerLog(sha);
      ledger := new CompactionEpochLedger(sha);
      new;
      EmptyHistory(sha);
    }

    method FeedReport(o: Observation, ghost os: seq<Observation>) returns (report: Report)
      requires InputsHold(os) && ReportsHold(Reports(os))
      modifies health, momentum, reports
      ensures InputsHold(os + [o]) && ReportsHold(Reports(os) + [report])
      ensures report == ReportAt(os + [o], |os|) && Reports(os + [o]) == Reports(os) + [report]
    {
      ReportsGrow(os, o);
      var vector := health.Record(o.epoch, o.chainsValid, o.totalPruned, o.cond);
      assert vector.content == VectorOf(o);
      ChainGrows(sha, VectorBody, Vectors(os), VectorOf(o));
      var record := momentum.Append(o.epoch, vector.content.joint);
      var chained := reports.Append(vector.content, record.content, o.spsfPct, o.healthPct, o.resPct);
      report := chained.content;
      assert report == ReportAt(os + [o], |os|);
      ChainGrows(sha, ReportBody, Reports(os), report);
    }

    /** The alert, the service level and the rate up to this epoch. The source divides by the
        number of records, cut to 32 bits. */
    method FeedAlert(report: Report, ghost rs: seq<Report>)
      returns (alert: AlertRecord, service: SlaRecord, rate: U32)
      requires AlertsHold(rs) && SlaHolds(rs) && AsU32(|rs| + 1) != 0
      modifies alerts, sla
      ensures AlertsHold(rs + [report]) && SlaHolds(rs + [report])
      ensures alert == AlertAt(rs + [report], |rs|) && service == SlaAt(rs + [report], |rs|)
      ensures rate == Rate(SlasOf(rs + [report]))
    {
      var chained := alerts.Append(report);
      alert := chained.content;
      assert alert == AlertAt(rs + [report], |rs|);
      service, rate := FeedSla(alert, report, rs);
    }

    method FeedSla(alert: AlertRecord, report: Report, ghost rs: seq<Report>) returns (service: SlaRecord, rate: U32)
      requires SlaHolds(rs) && alert == AlertAt(rs + [report], |rs|) && AsU32(|rs| + 1) != 0
      modifies sla
      ensures SlaHolds(rs + [report])
      ensures service == SlaAt(rs + [report], |rs|) && rate == Rate(SlasOf(rs + [report]))
    {
      var record := sla.Append(alert, report);
      service := record.content;
      assert service == SlaAt(rs + [report], |rs|);
      SlasGrow(rs, report);
      ChainGrows(sha, SlaBody, SlasOf(rs), service);
      rate := sla.ComplianceRate(SlasOf(rs + [report]));
    }

    method FeedTrend(previous: Report, report: Report, ghost rs: seq<Report>) returns (trend: TrendAnalyzer.TrendRecord)
      requires TrendsHold(rs) && rs != [] && previous == rs[|rs| - 1]
      modifies comparator, trends
      ensures TrendsHold(rs + [report]) && |DeltasOf(rs + [report])| == |rs|
      ensures trend == TrendAnalyzer.TrendAt(DeltasOf(rs + [report]), |rs| - 1)
    {
      DeltasGrow(rs, report);
      var delta := comparator.Compare(previous, report);
      ChainGrows(sha, DeltaBody, DeltasOf(rs), delta.content);
      var chained := trends.Append(delta.content);
      trend := chained.content;
    }

    /** The first epoch has nothing to be compared with. */
    method FeedDashboard(earlier: seq<Chained<Report>>, alert: AlertRecord, service: SlaRecord, rate: U32,
                         report: Report, ghost rs: seq<Report>)
      requires TrendsHold(rs) && FramesHold(rs) && earlier == ChainOf(sha, ReportBody, rs)
      requires alert == AlertAt(rs + [report], |rs|) && service == SlaAt(rs + [report], |rs|)
      requires rate == Rate(SlasOf(rs + [report]))
      modifies comparator, trends, dashboard
      ensures TrendsHold(rs + [report]) && FramesHold(rs + [report])
    {
      if earlier == [] {
        FirstEpoch(report);
        assert rs + [report] == [report];
      } else {
        FeedLaterEpoch(earlier[|earlier| - 1].content, alert, service, rate, report, rs);
      }
    }

    method FeedLaterEpoch(previous: Report, alert: AlertRecord, service: SlaRecord, rate: U32,
                          report: Report, ghost rs: seq<Report>)
      requires TrendsHold(rs) && FramesHold(rs) && rs != [] && previous == rs[|rs| - 1]
      requires alert == AlertAt(rs + [report], |rs|) && service == SlaAt(rs + [report], |rs|)
      requires rate == Rate(SlasOf(rs + [report]))
      modifies comparator, trends, dashboard
      ensures TrendsHold(rs + [report]) && FramesHold(rs + [report])
    {
      var trend := FeedTrend(previous, report, rs);
      FeedFrame(alert, trend, service, rate, report, rs);
    }

    method FeedFrame(alert: AlertRecord, trend: TrendAnalyzer.TrendRecord, service: SlaRecord, rate: U32,
                     report: Report, ghost rs: seq<Report>)
      requires FramesHold(rs) && rs != [] && |DeltasOf(rs + [report])| == |rs|
      requires alert == AlertAt(rs + [report], |rs|) && service == SlaAt(rs + [report], |rs|)
      requires rate == Rate(SlasOf(rs + [report]))
      requires trend == TrendAnalyzer.TrendAt(DeltasOf(rs + [report]), |rs| - 1)
      modifies dashboard
      ensures FramesHold(rs + [report])
    {
      FrameFrom(rs + [report], alert, service, trend, rate);
      FramesGrow(rs, report);
      var frame := dashboard.Record(report.epoch, alert.level, trend.trend, service.compliant, rate,
                                    trend.improvements, trend.degradations);
      assert frame.content == LastFrame(rs + [report]);
      ChainGrows(sha, Dashboard.FrameBody, FramesOf(rs), frame.content);
    }

    /** The report through all the logs that it feeds, in the documented order. */
    method FeedVerdicts(earlier: seq<Chained<Report>>, report: Report, ghost rs: seq<Report>)
      requires VerdictsHold(rs) && earlier == ChainOf(sha, ReportBody, rs) && AsU32(|rs| + 1) != 0
      modifies alerts, sla, comparator, trends, dashboard, planner
      ensures VerdictsHold(rs + [report])
    {
      var alert, service, rate := FeedAlert(report, rs);
      assert TrendsHold(rs) && FramesHold(rs) && PlanHolds(rs);
      var projection := planner.Append(report);
      assert PlanHolds(rs + [report]);
      FeedDashboard(earlier, alert, service, rate, report, rs);
    }

    /** One entry with the last hash of every log. */
    method FeedLedger(epoch: U64, ghost rs: seq<Report>, ghost r: Report)
      requires LedgerHolds(rs) && epoch == r.epoch
      requires ReportsHold(rs + [r]) && VerdictsHold(rs + [r])
      modifies ledger`entries
      ensures LedgerHolds(rs + [r])
    {
      LedgerGrows(sha, rs, r);
      var entry := ledger.Append(
        epoch, LastHash(reports.reports), LastHash(alerts.records), LastHash(sla.records),
        LastHash(planner.projections), LastHash(comparator.deltas), LastHash(trends.records),
        LastHash(dashboard.frames));
    }

    /** One epoch through all modules, in the documented order. */
    method Observe(o: Observation, ghost history: seq<Observation>)
      requires HoldsHistory(history) && AsU32(|history| + 1) != 0
      modifies health, momentum, reports, alerts, sla, comparator, trends, dashboard, planner, ledger
      ensures HoldsHistory(history + [o])
    {
      ghost var rs := Reports(history);
      var earlier := reports.reports;
      var report := FeedReport(o, history);
      FeedVerdicts(earlier, report, rs);
      FeedLedger(report.epoch, rs, report);
    }
  }
}
