/** The dashboard frame: one overall condition per epoch from alert, trend and compliance. */
module Dashboard {
  import opened Wrappers
  import opened Bytes
  import opened HashChain
  import opened AlertClassifier
  import opened TrendAnalyzer

  datatype DashboardCondition = Thriving | Stable | Concerning | Critical
  {
    function AsByte(): Byte {
      match this
      case Thriving => 0
      case Stable => 1
      case Concerning => 2
      case Critical => 3
    }
  }

  datatype DashboardFrame = DashboardFrame(
    epoch: U64, condition: DashboardCondition, alert: AlertLevel, trend: TrendClass, slaCompliant: bool,
    complianceRate: U32, improvements: U32, degradations: U32)

  function Condition(alert: AlertLevel, trend: TrendClass, slaCompliant: bool): DashboardCondition {
    if alert == Red || trend == DegradingTrend then Critical
    else if !slaCompliant || trend == Volatile || alert == Amber then Concerning
    else if slaCompliant && trend == ImprovingTrend && alert == Green then Thriving
    else Stable
  }

  /** A frame is stable, by its description, when it complies with a steady trend and no red
      alert. The code meets that except for amber alerts, which make a frame concerning. */
  lemma StableAsDescribed(alert: AlertLevel, trend: TrendClass, slaCompliant: bool)
    ensures (Condition(alert, trend, slaCompliant) == Stable <==> slaCompliant && trend == Steady && alert != Red)
            <==> !(slaCompliant && trend == Steady && alert == Amber)
    ensures Condition(Amber, Steady, true) == Concerning
  {
  }

  function FrameBody(f: DashboardFrame): ByteString {
    Be8(f.epoch) + [f.condition.AsByte(), f.alert.AsByte(), f.trend.AsByte(), Flag(f.slaCompliant)]
    + Be4(f.complianceRate) + Be4(f.improvements) + Be4(f.degradations)
  }

  /** A fixed-width encoding: it determines every field of the frame. */
  lemma FrameBodyInjective(f: DashboardFrame, g: DashboardFrame)
    requires FrameBody(f) == FrameBody(g)
    ensures f == g
  {
    var f1 := [f.condition.AsByte(), f.alert.AsByte(), f.trend.AsByte(), Flag(f.slaCompliant)];
    var g1 := [g.condition.AsByte(), g.alert.AsByte(), g.trend.AsByte(), Flag(g.slaCompliant)];
    var f2, g2 := Be8(f.epoch) + f1 + Be4(f.complianceRate), Be8(g.epoch) + g1 + Be4(g.complianceRate);
    SplitEqual(f2 + Be4(f.improvements), g2 + Be4(g.improvements), Be4(f.degradations), Be4(g.degradations));
    SplitEqual(f2, g2, Be4(f.improvements), Be4(g.improvements));
    SplitEqual(Be8(f.epoch) + f1, Be8(g.epoch) + g1, Be4(f.complianceRate), Be4(g.complianceRate));
    SplitEqual(Be8(f.epoch), Be8(g.epoch), f1, g1);
    Be8Injective(f.epoch, g.epoch);
    FourBytes(f.condition.AsByte(), f.alert.AsByte(), f.trend.AsByte(), Flag(f.slaCompliant),
              g.condition.AsByte(), g.alert.AsByte(), g.trend.AsByte(), Flag(g.slaCompliant));
    Be4Injective(f.complianceRate, g.complianceRate);
    Be4Injective(f.improvements, g.improvements);
    Be4Injective(f.degradations, g.degradations);
  }

  class CompactionDashboard {
    const sha: Hash
    var frames: seq<Chained<DashboardFrame>>

    constructor (sha: Hash)
      ensures this.sha == sha && frames == []
    {
      this.sha := sha;
      frames := [];
    }

    method Record(epoch: U64, alert: AlertLevel, trend: TrendClass, slaCompliant: bool, complianceRate: U32,
                  improvements: U32, degradations: U32) returns (f: Chained<DashboardFrame>)
      modifies this
      ensures frames == old(frames) + [f] && f == Next(sha, FrameBody, old(frames), f.content)
      ensures f.content == DashboardFrame(epoch, Condition(alert, trend, slaCompliant), alert, trend, slaCompliant,
                                          complianceRate, improvements, degradations)
    {
      var condition := Condition(alert, trend, slaCompliant);
      var content := DashboardFrame(epoch, condition, alert, trend, slaCompliant, complianceRate,
                                    improvements, degradations);
      f := Next(sha, FrameBody, frames, content);
      frames := frames + [f];
    }

    method VerifyChain() returns (valid: bool, broken: Option<nat>)
      ensures valid <==> LogHolds(sha, FrameBody, frames)
      ensures valid ==> broken == None
      ensures !valid ==> broken.Some? && FirstBroken(sha, Genesis(), LinksOf(FrameBody, frames), broken.value)
    {
      valid, broken := VerifyLog(sha, FrameBody, frames);
    }
  }
}
