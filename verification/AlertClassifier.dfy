/** Three-level alerts over the reports, with a counter of consecutive declining epochs. */
module AlertClassifier {
  import opened Wrappers
  import opened Bytes
  import opened HashChain
  import opened HealthAggregator
  import opened MomentumTracker
  import opened EpochReport

  const ALERT_DECLINING_THRESHOLD: nat := 3

  datatype AlertLevel = Green | Amber | Red
  {
    function AsByte(): Byte {
      match this
      case Green => 0
      case Amber => 1
      case Red => 2
    }
  }

  datatype AlertRecord = AlertRecord(
    epoch: U64, level: AlertLevel, joint: JointCondition, direction: Direction, streak: U32)

  function Classify(joint: JointCondition, direction: Direction, streak: nat): AlertLevel {
    if joint == JointCritical || streak >= ALERT_DECLINING_THRESHOLD then Red
    else if joint == JointDegraded || (direction == Declining && streak >= 2) then Amber
    else Green
  }

  /** How many of the last reports are declining, without a break. */
  function TrailingDeclines(rs: seq<Report>): (n: nat)
    ensures n <= |rs|
  {
    if rs == [] || rs[|rs| - 1].direction != Declining then 0 else TrailingDeclines(rs[..|rs| - 1]) + 1
  }

  /** The count is what its name says: that many last reports decline, and no more. */
  lemma {:induction false} TrailingDeclinesExactly(rs: seq<Report>)
    ensures var n := TrailingDeclines(rs);
      && (forall i :: |rs| - n <= i < |rs| ==> rs[i].direction == Declining)
      && (n < |rs| ==> rs[|rs| - n - 1].direction != Declining)
  {
    if TrailingDeclines(rs) > 0 {
      TrailingDeclinesExactly(rs[..|rs| - 1]);
    }
  }

  lemma {:induction false} AtLeastDeclines(rs: seq<Report>, k: nat)
    requires k <= |rs| && forall i :: |rs| - k <= i < |rs| ==> rs[i].direction == Declining
    ensures TrailingDeclines(rs) >= k
  {
    if k > 0 {
      assert rs[|rs| - 1].direction == Declining;
      AtLeastDeclines(rs[..|rs| - 1], k - 1);
    }
  }

  /** The 32-bit counter saturates. */
  function Streak(rs: seq<Report>): U32 {
    if TrailingDeclines(rs) < U32_BOUND then TrailingDeclines(rs) else U32_BOUND - 1
  }

  function AlertAt(rs: seq<Report>, n: nat): AlertRecord
    requires n < |rs|
  {
    var r, streak := rs[n], Streak(rs[..n + 1]);
    AlertRecord(r.epoch, Classify(r.joint, r.direction, streak), r.joint, r.direction, streak)
  }

  /** An alert is green exactly when the joint condition is at most nominal and at most one
      decline is trailing. The description, which asks for no decline at all, is met except when
      exactly one decline is trailing. */
  lemma GreenExactly(rs: seq<Report>, n: nat)
    requires n < |rs|
    ensures var declines := TrailingDeclines(rs[..n + 1]);
      && (AlertAt(rs, n).level == Green <==> rs[n].joint.Score() <= 1 && declines <= 1)
      && ((AlertAt(rs, n).level == Green <==> rs[n].joint.Score() <= 1 && rs[n].direction != Declining)
          <==> !(rs[n].joint.Score() <= 1 && declines == 1))
  {
    var upTo := rs[..n + 1];
    assert upTo[|upTo| - 1] == rs[n];
  }

  function AlertBody(a: AlertRecord): ByteString {
    Be8(a.epoch) + [a.level.AsByte(), a.joint.Score(), a.direction.AsByte()] + Be4(a.streak)
  }

  /** A fixed-width encoding: it determines every field of the alert. */
  lemma AlertBodyInjective(a: AlertRecord, b: AlertRecord)
    requires AlertBody(a) == AlertBody(b)
    ensures a == b
  {
    var a1 := [a.level.AsByte(), a.joint.Score(), a.direction.AsByte()];
    var b1 := [b.level.AsByte(), b.joint.Score(), b.direction.AsByte()];
    SplitEqual(Be8(a.epoch) + a1, Be8(b.epoch) + b1, Be4(a.streak), Be4(b.streak));
    SplitEqual(Be8(a.epoch), Be8(b.epoch), a1, b1);
    Be8Injective(a.epoch, b.epoch);
    Be4Injective(a.streak, b.streak);
    ThreeBytes(a.level.AsByte(), a.joint.Score(), a.direction.AsByte(),
               b.level.AsByte(), b.joint.Score(), b.direction.AsByte());
  }

  /** The alerts of a history of reports. */
  function AlertsOf(rs: seq<Report>): (alerts: seq<AlertRecord>)
    ensures |alerts| == |rs|
  {
    seq(|rs|, i requires 0 <= i < |rs| => AlertAt(rs, i))
  }

  /** One report more adds one alert to the chain. */
  lemma AlertsGrow(sha: Hash, rs: seq<Report>, r: Report)
    ensures var chain := ChainOf(sha, AlertBody, AlertsOf(rs));
      ChainOf(sha, AlertBody, AlertsOf(rs + [r])) == chain + [Next(sha, AlertBody, chain, AlertAt(rs + [r], |rs|))]
  {
    forall i | 0 <= i < |rs|
      ensures AlertAt(rs + [r], i) == AlertAt(rs, i)
    {
      assert (rs + [r])[..i + 1] == rs[..i + 1];
    }
    assert AlertsOf(rs + [r]) == AlertsOf(rs) + [AlertAt(rs + [r], |rs|)];
    ChainGrows(sha, AlertBody, AlertsOf(rs), AlertAt(rs + [r], |rs|));
  }

  /** How the saturating counter follows the streak. */
  lemma StreakGrows(rs: seq<Report>, r: Report)
    ensures var streak := Streak(rs + [r]);
      && streak == (if r.direction != Declining then 0
                    else if Streak(rs) < U32_BOUND - 1 then Streak(rs) + 1 else Streak(rs))
      && AlertAt(rs + [r], |rs|)
         == AlertRecord(r.epoch, Classify(r.joint, r.direction, streak), r.joint, r.direction, streak)
  {
    assert (rs + [r])[..|rs|] == rs && (rs + [r])[..|rs| + 1] == rs + [r];
  }

  class CompactionAlertLog {
    const sha: Hash
    var records: seq<Chained<AlertRecord>>
    var consecutiveDeclining: U32
    ghost var seen: seq<Report>

    ghost predicate Valid()
      reads this
    {
      records == ChainOf(sha, AlertBody, AlertsOf(seen)) && consecutiveDeclining == Streak(seen)
    }

    constructor (sha: Hash)
      ensures this.sha == sha && Valid() && seen == [] && records == []
    {
      this.sha := sha;
      records := [];
      consecutiveDeclining := 0;
      seen := [];
    }

    method Append(report: Report) returns (a: Chained<AlertRecord>)
      requires Valid()
      modifies this
      ensures Valid()
      ensures seen == old(seen) + [report] && records == old(records) + [a]
      ensures a.content == AlertAt(seen, |seen| - 1)
    {
      AlertsGrow(sha, seen, report);
      var content := Judge(report);
      a := Next(sha, AlertBody, records, content);
      records := records + [a];
      seen := seen + [report];
    }

    /** Updates the streak counter and classifies the report. */
    method Judge(report: Report) returns (a: AlertRecord)
      requires consecutiveDeclining == Streak(seen)
      modifies this`consecutiveDeclining
      ensures consecutiveDeclining == Streak(seen + [report]) && a == AlertAt(seen + [report], |seen|)
    {
      StreakGrows(seen, report);
      if report.direction == Declining {
        if consecutiveDeclining < U32_BOUND - 1 {
          consecutiveDeclining := consecutiveDeclining + 1;
        }
      } else {
        consecutiveDeclining := 0;
      }
      var level := Classify(report.joint, report.direction, consecutiveDeclining);
      a := AlertRecord(report.epoch, level, report.joint, report.direction, consecutiveDeclining);
    }

    /** The largest streak ever recorded; 0 for an empty log. */
    method MaxConsecutiveDeclining() returns (m: U32)
      ensures forall i :: 0 <= i < |records| ==> records[i].content.streak <= m
      ensures m == 0 || exists i :: 0 <= i < |records| && records[i].content.streak == m
    {
      m := 0;
      for i := 0 to |records|
        invariant forall j :: 0 <= j < i ==> records[j].content.streak <= m
        invariant m == 0 || exists j :: 0 <= j < i && records[j].content.streak == m
      {
        if records[i].content.streak > m {
          m := records[i].content.streak;
        }
      }
    }

    method VerifyChain() returns (valid: bool, broken: Option<nat>)
      ensures valid <==> LogHolds(sha, AlertBody, records)
      ensures valid ==> broken == None
      ensures !valid ==> broken.Some? && FirstBroken(sha, Genesis(), LinksOf(AlertBody, records), broken.value)
    {
      valid, broken := VerifyLog(sha, AlertBody, records);
    }
  }
}
