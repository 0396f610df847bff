/** The per-epoch report: health, momentum and telemetry shares in one record. */
module EpochReport {
  import opened Wrappers
  import opened Bytes
  import opened HashChain
  import opened HealthAggregator
  import opened MomentumTracker

  datatype Report = Report(
    epoch: U64, joint: JointCondition, grade: Grade, totalPruned: U64, chainsValid: bool,
    direction: Direction, momentum: int, windowSize: nat, spsfPct: Byte, healthPct: Byte, resPct: Byte)

  function ReportBody(r: Report): ByteString {
    Be8(r.epoch) + [r.joint.Score(), r.grade.AsByte()] + Be8(r.totalPruned)
    + [Flag(r.chainsValid), r.direction.AsByte()] + SignedBigEndian(r.momentum, 2) + BigEndian(r.windowSize, 2)
    + [r.spsfPct, r.healthPct, r.resPct]
  }

  /** The widths of the source's fields. */
  predicate Fits(r: Report) {
    -0x8000 <= r.momentum < 0x8000 && r.windowSize < 0x1_0000
  }

  /** A fixed-width encoding: it determines every field of the report. */
  lemma ReportBodyInjective(a: Report, b: Report)
    requires Fits(a) && Fits(b) && ReportBody(a) == ReportBody(b)
    ensures a == b
  {
    var a1 := Be8(a.epoch) + [a.joint.Score(), a.grade.AsByte()];
    var b1 := Be8(b.epoch) + [b.joint.Score(), b.grade.AsByte()];
    var a2, b2 := a1 + Be8(a.totalPruned), b1 + Be8(b.totalPruned);
    var a3, b3 := a2 + [Flag(a.chainsValid), a.direction.AsByte()], b2 + [Flag(b.chainsValid), b.direction.AsByte()];
    var a4, b4 := a3 + SignedBigEndian(a.momentum, 2), b3 + SignedBigEndian(b.momentum, 2);
    var a5, b5 := a4 + BigEndian(a.windowSize, 2), b4 + BigEndian(b.windowSize, 2);
    SplitEqual(a5, b5, [a.spsfPct, a.healthPct, a.resPct], [b.spsfPct, b.healthPct, b.resPct]);
    SplitEqual(a4, b4, BigEndian(a.windowSize, 2), BigEndian(b.windowSize, 2));
    SplitEqual(a3, b3, SignedBigEndian(a.momentum, 2), SignedBigEndian(b.momentum, 2));
    SplitEqual(a2, b2, [Flag(a.chainsValid), a.direction.AsByte()], [Flag(b.chainsValid), b.direction.AsByte()]);
    SplitEqual(a1, b1, Be8(a.totalPruned), Be8(b.totalPruned));
    SplitEqual(Be8(a.epoch), Be8(b.epoch),
               [a.joint.Score(), a.grade.AsByte()], [b.joint.Score(), b.grade.AsByte()]);
    Be8Injective(a.epoch, b.epoch);
    Be8Injective(a.totalPruned, b.totalPruned);
    Signed2Injective(a.momentum, b.momentum);
    Be2Injective(a.windowSize, b.windowSize);
    ThreeBytes(a.spsfPct, a.healthPct, a.resPct, b.spsfPct, b.healthPct, b.resPct);
    TwoBytes(Flag(a.chainsValid), a.direction.AsByte(), Flag(b.chainsValid), b.direction.AsByte());
    TwoBytes(a.joint.Score(), a.grade.AsByte(), b.joint.Score(), b.grade.AsByte());
  }

  class CompactionEpochReportLog {
    const sha: Hash
    var reports: seq<Chained<Report>>

    constructor (sha: Hash)
      ensures this.sha == sha && reports == []
    {
      this.sha := sha;
      reports := [];
    }

    /** Health fields come from the vector, trend fields from the momentum record; the momentum
        record's own epoch and condition are not consulted. */
    method Append(health: HealthVector, momentum: MomentumRecord, spsfPct: Byte, healthPct: Byte, resPct: Byte)
      returns (r: Chained<Report>)
      modifies this
      ensures reports == old(reports) + [r] && r == Next(sha, ReportBody, old(reports), r.content)
      ensures r.content.epoch == health.epoch && r.content.joint == health.joint && r.content.grade == health.grade
      ensures r.content.totalPruned == health.totalPruned && r.content.chainsValid == health.chainsValid
      ensures r.content.direction == momentum.direction && r.content.momentum == momentum.momentum
      ensures r.content.windowSize == momentum.windowSize
      ensures r.content.spsfPct == spsfPct && r.content.healthPct == healthPct && r.content.resPct == resPct
    {
      var content := Report(health.epoch, health.joint, health.grade, health.totalPruned, health.chainsValid,
                            momentum.direction, momentum.momentum, momentum.windowSize, spsfPct, healthPct, resPct);
      r := Next(sha, ReportBody, reports, content);
      reports := reports + [r];
    }

    method VerifyChain() returns (valid: bool, broken: Option<nat>)
      ensures valid <==> LogHolds(sha, ReportBody, reports)
      ensures valid ==> broken == None
      ensures !valid ==> broken.Some? && FirstBroken(sha, Genesis(), LinksOf(ReportBody, reports), broken.value)
    {
      valid, broken := VerifyLog(sha, ReportBody, reports);
    }
  }
}
