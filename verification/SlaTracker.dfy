/** Per-epoch compliance with the service level: joint condition, alert level and chains. */
module SlaTracker {
  import opened Wrappers
  import opened Bytes
  import opened Arithmetic
  import opened HashChain
  import opened HealthAggregator
  import opened EpochReport
  import opened AlertClassifier

  datatype SlaRecord = SlaRecord(
    epoch: U64, compliant: bool, jointOk: bool, alertOk: bool, chainsOk: bool, violationMask: Byte)

  function Bit(b: bool, weight: Byte): Byte {
    if b then weight else 0
  }

  function SlaOf(alert: AlertRecord, r: Report): SlaRecord {
    var jointOk, alertOk := r.joint.Score() <= 1, alert.level != Red;
    SlaRecord(r.epoch, jointOk && alertOk && r.chainsValid, jointOk, alertOk, r.chainsValid,
              Bit(!jointOk, 1) + Bit(!alertOk, 2) + Bit(!r.chainsValid, 4))
  }

  /** The mask encodes the three checks without loss, and is zero exactly for compliance. */
  lemma MaskIsFaithful(a: SlaRecord, b: SlaRecord, alert: AlertRecord, r: Report, alert': AlertRecord, r': Report)
    requires a == SlaOf(alert, r) && b == SlaOf(alert', r')
    ensures a.violationMask == b.violationMask <==>
      a.jointOk == b.jointOk && a.alertOk == b.alertOk && a.chainsOk == b.chainsOk
    ensures a.violationMask == 0 <==> a.compliant
    ensures a.violationMask < 8
  {
  }

  function SlaBody(s: SlaRecord): ByteString {
    Be8(s.epoch) + [Flag(s.compliant), s.violationMask]
  }

  /** The mask sums up the three checks. */
  predicate SlaFits(s: SlaRecord) {
    s.violationMask == Bit(!s.jointOk, 1) + Bit(!s.alertOk, 2) + Bit(!s.chainsOk, 4)
  }

  /** The encoding determines every field of such a record, the unhashed checks included. */
  lemma SlaBodyInjective(s: SlaRecord, t: SlaRecord)
    requires SlaFits(s) && SlaFits(t) && SlaBody(s) == SlaBody(t)
    ensures s == t
  {
    SplitEqual(Be8(s.epoch), Be8(t.epoch), [Flag(s.compliant), s.violationMask], [Flag(t.compliant), t.violationMask]);
    Be8Injective(s.epoch, t.epoch);
    TwoBytes(Flag(s.compliant), s.violationMask, Flag(t.compliant), t.violationMask);
  }

  function CompliantCount(ss: seq<SlaRecord>): (n: nat)
    ensures n <= |ss|
  {
    if ss == [] then 0 else CompliantCount(ss[..|ss| - 1]) + (if ss[|ss| - 1].compliant then 1 else 0)
  }

  /** The rate of 32-bit counts in per mille; the product wraps. */
  function PerMille(compliant: U32, all: U32): U32
    requires all > 0
  {
    var product := compliant * 1000 % U32_BOUND;
    Quotient(product, all, U32_BOUND);
    Scale(1, all, U32_BOUND);
    product / all
  }

  /** It is the true one exactly when a thousand times the compliant count fits in 32 bits, and
      is then 1000 exactly when everything complies. */
  lemma PerMilleExactly(n: U32, d: U32)
    requires n <= d && d > 0
    ensures PerMille(n, d) == n * 1000 / d <==> n * 1000 < U32_BOUND
    ensures n * 1000 < U32_BOUND ==> PerMille(n, d) <= 1000 && (PerMille(n, d) == 1000 <==> n == d)
  {
    CutQuotient(n * 1000, n * 1000 % U32_BOUND, d);
    Quotient(n * 1000, d, 1000);
    Quotient(n * 1000, d, 1001);
  }

  /** The compliance rate of a log: both counts are cut to 32 bits. For a positive multiple of
      2^32 records the source divides by zero; the value there is not used. */
  function Rate(ss: seq<SlaRecord>): U32 {
    if AsU32(|ss|) == 0 then 1000 else PerMille(AsU32(CompliantCount(ss)), AsU32(|ss|))
  }

  /** The cast from `usize` to `u32`. */
  function AsU32(n: nat): U32 {
    if n < U32_BOUND then n else n % U32_BOUND
  }

  lemma {:induction false} MultiplesVanish(r: nat, k: nat)
    ensures (k * U32_BOUND + r) % U32_BOUND == r % U32_BOUND
  {
    if k > 0 {
      MultiplesVanish(r, k - 1);
      assert (k - 1) * U32_BOUND + r == k * U32_BOUND + r - U32_BOUND;
    }
  }

  /** Cutting a product is cutting its factor first. */
  lemma CutProduct(n: nat)
    ensures AsU32(n) * 1000 % U32_BOUND == n * 1000 % U32_BOUND
  {
    var q, r := n / U32_BOUND, n % U32_BOUND;
    assert AsU32(n) == r && n * 1000 == q * 1000 * U32_BOUND + r * 1000;
    MultiplesVanish(r * 1000, q * 1000);
  }

  lemma FullRate(d: U32)
    requires d > 0
    ensures PerMille(d, d) == 1000 <==> d * 1000 < U32_BOUND
  {
    PerMilleExactly(d, d);
    QuotientExactly(d * 1000, d, 1000);
  }

  /** A product below its divisor has the quotient 0. */
  lemma SmallRate(n: U32, cut: U32, all: nat)
    requires cut > 0 && n * 1000 < U32_BOUND <= all
    ensures PerMille(n, cut) == n * 1000 / all <==> n * 1000 < cut
  {
    ZeroQuotient(n * 1000, cut);
    ZeroQuotient(n * 1000, all);
  }

  /** The rate of every log the source does not divide by zero on. Below 2^32 records it is the
      true one exactly when a thousand times the compliant count fits in 32 bits, and is then
      1000 exactly when everything complies. From 2^32 records on, a compliant count that small
      is reported truly exactly when the cut length exceeds a thousand times it, and full
      compliance reads 1000 exactly when a thousand times the cut length fits. */
  lemma RateExactly(ss: seq<SlaRecord>)
    requires AsU32(|ss|) > 0
    ensures var n, cut := CompliantCount(ss), AsU32(|ss|);
      && Rate(ss) == (n * 1000 % U32_BOUND) / cut
      && (|ss| < U32_BOUND ==> (Rate(ss) == n * 1000 / |ss| <==> n * 1000 < U32_BOUND))
      && (n * 1000 < U32_BOUND && |ss| < U32_BOUND ==> Rate(ss) <= 1000 && (Rate(ss) == 1000 <==> n == |ss|))
      && (n * 1000 < U32_BOUND <= |ss| ==> (Rate(ss) == n * 1000 / |ss| <==> n * 1000 < cut))
      && (n == |ss| ==> (Rate(ss) == 1000 <==> cut * 1000 < U32_BOUND))
  {
    var n, cut := CompliantCount(ss), AsU32(|ss|);
    CutProduct(n);
    if |ss| < U32_BOUND {
      PerMilleExactly(n, |ss|);
    } else if n * 1000 < U32_BOUND {
      SmallRate(n, cut, |ss|);
    }
    if n == |ss| {
      FullRate(cut);
    }
  }

  lemma {:induction false} CountOfRepeated(s: SlaRecord, n: nat)
    ensures CompliantCount(seq(n, _ => s)) == if s.compliant then n else 0
  {
    if n > 0 {
      CountOfRepeated(s, n - 1);
      assert seq(n, _ => s)[..n - 1] == seq(n - 1, _ => s);
    }
  }

  /** So a log of 4,294,968 epochs that all comply has the rate 0. */
  lemma FullComplianceCanReadZero(s: SlaRecord)
    requires s.compliant
    ensures Rate(seq(4_294_968, _ => s)) == 0
  {
    CountOfRepeated(s, 4_294_968);
  }

  /** And one of 2^32 + 2 epochs of which all but the last comply reads 500 per mille. */
  lemma LongLogCanReadHalf(s: SlaRecord, last: SlaRecord)
    requires s.compliant && !last.compliant
    ensures var ss := seq(U32_BOUND + 1, _ => s) + [last];
      Rate(ss) == 500 && CompliantCount(ss) * 1000 / |ss| == 999
  {
    var front := seq(U32_BOUND + 1, _ => s);
    CountOfRepeated(s, U32_BOUND + 1);
    assert (front + [last])[..U32_BOUND + 1] == front;
    assert CompliantCount(front + [last]) == U32_BOUND + 1;
  }

  class SlaTrackerLog {
    const sha: Hash
    var records: seq<Chained<SlaRecord>>

    constructor (sha: Hash)
      ensures this.sha == sha && records == []
    {
      this.sha := sha;
      records := [];
    }

    method Append(alert: AlertRecord, report: Report) returns (s: Chained<SlaRecord>)
      modifies this
      ensures records == old(records) + [s] && s == Next(sha, SlaBody, old(records), SlaOf(alert, report))
    {
      var jointOk := report.joint == JointOptimal || report.joint == JointNominal;
      var alertOk := alert.level == Green || alert.level == Amber;
      var chainsOk := report.chainsValid;
      var mask := Bit(!jointOk, 1) + Bit(!alertOk, 2) + Bit(!chainsOk, 4);
      var content := SlaRecord(report.epoch, jointOk && alertOk && chainsOk, jointOk, alertOk, chainsOk, mask);
      s := Next(sha, SlaBody, records, content);
      records := records + [s];
    }

    method ComplianceRate(ghost contents: seq<SlaRecord>) returns (rate: U32)
      requires records == [] || AsU32(|records|) != 0
      requires records == ChainOf(sha, SlaBody, contents)
      ensures rate == Rate(contents)
    {
      if records == [] {
        return 1000;
      }
      var compliant := 0;
      for i := 0 to |records|
        invariant compliant == CompliantCount(contents[..i])
      {
        assert contents[..i + 1][..i] == contents[..i];
        if records[i].content.compliant {
          compliant := compliant + 1;
        }
      }
      assert contents[..|records|] == contents;
      rate := PerMille(AsU32(compliant), AsU32(|records|));
    }

    method VerifyChain() returns (valid: bool, broken: Option<nat>)
      ensures valid <==> LogHolds(sha, SlaBody, records)
      ensures valid ==> broken == None
      ensures !valid ==> broken.Some? && FirstBroken(sha, Genesis(), LinksOf(SlaBody, records), broken.value)
    {
      valid, broken := VerifyLog(sha, SlaBody, records);
    }
  }
}
