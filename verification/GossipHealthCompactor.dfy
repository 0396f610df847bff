/** Proof-preserving compaction of the gossip health chain: a prefix of reports is replaced by
    an anchor that commits to it. */
module GossipHealthCompactor {
  import opened Wrappers
  import opened Bytes
  import opened HashChain
  import opened GossipHealth

  /** What the anchor absorbs of one report. */
  datatype PrunedReport = PrunedReport(epoch: U64, reportHash: Digest, healthClass: HealthClass)

  datatype Anchor = Anchor(anchorEpoch: U64, terminalHash: Digest, entryCount: U64, peakClass: HealthClass)

  function Worse(a: HealthClass, b: HealthClass): HealthClass {
    if b.AsByte() > a.AsByte() then b else a
  }

  // ---------------------------------------------------------------- the anchor

  function PrunedBody(p: PrunedReport): ByteString {
    Be8(p.epoch) + p.reportHash + [p.healthClass.AsByte()]
  }

  /** The rolling hash over the pruned records. */
  function RollingHash(sha: Hash, pruned: seq<PrunedReport>): Digest {
    if pruned == [] then Genesis()
    else sha(RollingHash(sha, pruned[..|pruned| - 1]) + PrunedBody(pruned[|pruned| - 1]))
  }

  /** `c` is the worst class of the pruned records, and one of them has it; an empty prefix
      counts as Green. */
  predicate IsPeak(pruned: seq<PrunedReport>, c: HealthClass) {
    && (forall i :: 0 <= i < |pruned| ==> pruned[i].healthClass.AsByte() <= c.AsByte())
    && (c == Green || exists i :: 0 <= i < |pruned| && pruned[i].healthClass == c)
  }

  predicate Anchors(sha: Hash, pruned: seq<PrunedReport>, a: Anchor) {
    && a.terminalHash == RollingHash(sha, pruned)
    && a.entryCount == |pruned|
    && IsPeak(pruned, a.peakClass)
    && a.anchorEpoch == (if pruned == [] then 0 else pruned[|pruned| - 1].epoch)
  }

  method FromPruned(sha: Hash, pruned: seq<PrunedReport>) returns (a: Anchor)
    requires |pruned| < U64_BOUND
    ensures Anchors(sha, pruned, a)
  {
    if pruned == [] {
      return Anchor(0, Genesis(), 0, Green);
    }
    var acc := Genesis();
    var peak := Green;
    for i := 0 to |pruned|
      invariant acc == RollingHash(sha, pruned[..i])
      invariant IsPeak(pruned[..i], peak)
    {
      assert pruned[..i + 1][..i] == pruned[..i];
      acc := sha(acc + PrunedBody(pruned[i]));
      ghost var before := peak;
      peak := Worse(peak, pruned[i].healthClass);
      PeakGrows(pruned[..i], before, pruned[i]);
      assert pruned[..i + 1] == pruned[..i] + [pruned[i]];
    }
    assert pruned[..|pruned|] == pruned;
    a := Anchor(pruned[|pruned| - 1].epoch, acc, |pruned|, peak);
  }

  lemma PeakGrows(pruned: seq<PrunedReport>, c: HealthClass, p: PrunedReport)
    requires IsPeak(pruned, c)
    ensures IsPeak(pruned + [p], Worse(c, p.healthClass))
  {
    var all := pruned + [p];
    assert all[|pruned|] == p;
    if Worse(c, p.healthClass) == c && c != Green {
      var i :| 0 <= i < |pruned| && pruned[i].healthClass == c;
      assert all[i].healthClass == c;
    }
  }

  /** The anchor epoch is documented as the highest pruned epoch. */
  predicate HighestEpoch(pruned: seq<PrunedReport>, a: Anchor) {
    forall i :: 0 <= i < |pruned| ==> pruned[i].epoch <= a.anchorEpoch
  }

  predicate NeverBackwards(pruned: seq<PrunedReport>) {
    forall i, j :: 0 <= i <= j < |pruned| ==> pruned[i].epoch <= pruned[j].epoch
  }

  /** The code stores the last pruned epoch: wherever the reports are cut, the anchor has the
      highest one, exactly when epochs never go backwards. */
  lemma AnchorEpochIsHighestExactly(sha: Hash, pruned: seq<PrunedReport>)
    requires |pruned| < U64_BOUND
    ensures NeverBackwards(pruned) <==>
      forall n, a :: 0 <= n <= |pruned| && Anchors(sha, pruned[..n], a) ==> HighestEpoch(pruned[..n], a)
  {
    if forall n, a :: 0 <= n <= |pruned| && Anchors(sha, pruned[..n], a) ==> HighestEpoch(pruned[..n], a) {
      forall i, j | 0 <= i <= j < |pruned|
        ensures pruned[i].epoch <= pruned[j].epoch
      {
        var a := AnchorExists(sha, pruned[..j + 1]);
        assert HighestEpoch(pruned[..j + 1], a);
        assert pruned[..j + 1][i] == pruned[i];
      }
    }
  }

  lemma {:induction false} PeakExists(pruned: seq<PrunedReport>) returns (c: HealthClass)
    ensures IsPeak(pruned, c)
  {
    c := Green;
    if pruned != [] {
      var n := |pruned| - 1;
      c := PeakExists(pruned[..n]);
      PeakGrows(pruned[..n], c, pruned[n]);
      assert pruned == pruned[..n] + [pruned[n]];
      c := Worse(c, pruned[n].healthClass);
    }
  }

  lemma AnchorExists(sha: Hash, pruned: seq<PrunedReport>) returns (a: Anchor)
    requires |pruned| < U64_BOUND
    ensures Anchors(sha, pruned, a)
  {
    var peak := PeakExists(pruned);
    a := Anchor(if pruned == [] then 0 else pruned[|pruned| - 1].epoch, RollingHash(sha, pruned), |pruned|, peak);
  }

  /** The rolling hash seen as a chain of links. */
  function AnchorLinks(sha: Hash, pruned: seq<PrunedReport>): (ls: seq<Link>)
    ensures |ls| == |pruned|
  {
    if pruned == [] then []
    else
      var front := pruned[..|pruned| - 1];
      AnchorLinks(sha, front)
      + [Link(RollingHash(sha, front), PrunedBody(pruned[|pruned| - 1]), RollingHash(sha, pruned))]
  }

  lemma {:induction false} AnchorLinksHold(sha: Hash, pruned: seq<PrunedReport>)
    ensures Linked(sha, Genesis(), AnchorLinks(sha, pruned))
    ensures Tip(Genesis(), AnchorLinks(sha, pruned)) == RollingHash(sha, pruned)
  {
    if pruned != [] {
      var front := pruned[..|pruned| - 1];
      AnchorLinksHold(sha, front);
      var l := Link(RollingHash(sha, front), PrunedBody(pruned[|pruned| - 1]), RollingHash(sha, pruned));
      LinkedGrows(sha, Genesis(), AnchorLinks(sha, front), l);
    }
  }

  lemma PrunedBodyInjective(p: PrunedReport, q: PrunedReport)
    requires PrunedBody(p) == PrunedBody(q)
    ensures p == q
  {
    SplitEqual(Be8(p.epoch) + p.reportHash, Be8(q.epoch) + q.reportHash,
               [p.healthClass.AsByte()], [q.healthClass.AsByte()]);
    SplitEqual(Be8(p.epoch), Be8(q.epoch), p.reportHash, q.reportHash);
    Be8Injective(p.epoch, q.epoch);
    OneByte(p.healthClass.AsByte(), q.healthClass.AsByte());
  }

  lemma LastAnchorLink(sha: Hash, ps: seq<PrunedReport>, n: nat)
    requires |ps| == n + 1
    ensures AnchorLinks(sha, ps)[..n] == AnchorLinks(sha, ps[..n])
    ensures AnchorLinks(sha, ps)[n].body == PrunedBody(ps[n])
  {
  }

  lemma {:induction false} AnchorLinksInjective(sha: Hash, a: seq<PrunedReport>, b: seq<PrunedReport>)
    requires AnchorLinks(sha, a) == AnchorLinks(sha, b)
    ensures a == b
    decreases |a|
  {
    assert |a| == |b|;
    if a != [] {
      var n := |a| - 1;
      LastAnchorLink(sha, a, n);
      LastAnchorLink(sha, b, n);
      AnchorLinksInjective(sha, a[..n], b[..n]);
      PrunedBodyInjective(a[n], b[n]);
      assert a == a[..n] + [a[n]] && b == b[..n] + [b[n]];
    }
  }

  /** Anchor binding: prefixes of equal length with the same rolling hash are identical, or
      their rolling hashes contain an explicit collision. */
  lemma RollingHashBinds(sha: Hash, a: seq<PrunedReport>, b: seq<PrunedReport>)
    requires |a| == |b| && RollingHash(sha, a) == RollingHash(sha, b)
    ensures a == b || CollisionBetween(sha, AnchorLinks(sha, a), AnchorLinks(sha, b))
  {
    AnchorLinksHold(sha, a);
    AnchorLinksHold(sha, b);
    SameTipSameChain(sha, Genesis(), AnchorLinks(sha, a), Genesis(), AnchorLinks(sha, b));
    if AnchorLinks(sha, a) == AnchorLinks(sha, b) {
      AnchorLinksInjective(sha, a, b);
    }
  }

  // ---------------------------------------------------------------- compaction

  datatype CompactionResult = CompactionResult(
    compactionEpoch: U64, prunedCount: U64, retainedCount: U64, anchor: Anchor, certificateHash: Digest)

  function PrunedOf(rs: seq<HealthReport>): (ps: seq<PrunedReport>)
    ensures |ps| == |rs|
  {
    seq(|rs|, i requires 0 <= i < |rs| => PrunedReport(rs[i].input.epoch, rs[i].reportHash, rs[i].healthClass))
  }

  function CertificateBytes(r: CompactionResult): ByteString {
    Be8(r.compactionEpoch) + Be8(r.prunedCount) + Be8(r.retainedCount)
    + r.anchor.terminalHash + Be8(r.anchor.anchorEpoch) + [r.anchor.peakClass.AsByte()]
  }

  /** How many reports a request actually prunes. */
  function Pruned(reports: seq<HealthReport>, pruneCount: nat): (n: nat)
    ensures n <= |reports|
  {
    if pruneCount < |reports| then pruneCount else |reports|
  }

  /** `r` is the outcome of compacting `reports`. */
  predicate Compacts(sha: Hash, reports: seq<HealthReport>, pruneCount: nat, epoch: U64, r: CompactionResult) {
    var n := Pruned(reports, pruneCount);
    && r.compactionEpoch == epoch
    && r.prunedCount == n
    && r.prunedCount + r.retainedCount == |reports|
    && Anchors(sha, PrunedOf(reports[..n]), r.anchor)
    && r.certificateHash == sha(CertificateBytes(r))
  }

  method CompactGossipHealth(sha: Hash, reports: seq<HealthReport>, pruneCount: nat, epoch: U64)
    returns (r: CompactionResult)
    requires |reports| < U64_BOUND
    ensures Compacts(sha, reports, pruneCount, epoch, r)
  {
    var n := Pruned(reports, pruneCount);
    var anchor := FromPruned(sha, PrunedOf(reports[..n]));
    r := CompactionResult(epoch, n, |reports| - n, anchor, Genesis());
    r := r.(certificateHash := sha(CertificateBytes(r)));
    assert CertificateBytes(r) == CertificateBytes(r.(certificateHash := Genesis()));
  }

  lemma CertificateBytesInjective(r: CompactionResult, s: CompactionResult)
    requires CertificateBytes(r) == CertificateBytes(s)
    ensures r.compactionEpoch == s.compactionEpoch && r.prunedCount == s.prunedCount
    ensures r.retainedCount == s.retainedCount
    ensures r.anchor.terminalHash == s.anchor.terminalHash
    ensures r.anchor.anchorEpoch == s.anchor.anchorEpoch && r.anchor.peakClass == s.anchor.peakClass
  {
    var a1, b1 := Be8(r.compactionEpoch) + Be8(r.prunedCount), Be8(s.compactionEpoch) + Be8(s.prunedCount);
    var a2, b2 := a1 + Be8(r.retainedCount), b1 + Be8(s.retainedCount);
    var a3, b3 := a2 + r.anchor.terminalHash, b2 + s.anchor.terminalHash;
    var a4, b4 := a3 + Be8(r.anchor.anchorEpoch), b3 + Be8(s.anchor.anchorEpoch);
    SplitEqual(a4, b4, [r.anchor.peakClass.AsByte()], [s.anchor.peakClass.AsByte()]);
    SplitEqual(a3, b3, Be8(r.anchor.anchorEpoch), Be8(s.anchor.anchorEpoch));
    SplitEqual(a2, b2, r.anchor.terminalHash, s.anchor.terminalHash);
    SplitEqual(a1, b1, Be8(r.retainedCount), Be8(s.retainedCount));
    SplitEqual(Be8(r.compactionEpoch), Be8(s.compactionEpoch), Be8(r.prunedCount), Be8(s.prunedCount));
    assert [r.anchor.peakClass.AsByte()][0] == [s.anchor.peakClass.AsByte()][0];
    Be8Injective(r.compactionEpoch, s.compactionEpoch);
    Be8Injective(r.prunedCount, s.prunedCount);
    Be8Injective(r.retainedCount, s.retainedCount);
    Be8Injective(r.anchor.anchorEpoch, s.anchor.anchorEpoch);
  }

  /** A monitor that sees epoch 2 before epoch 1 keeps an intact chain, and pruning both
      reports anchors epoch 1. */
  lemma AnchorCanUnderstateEpoch(sha: Hash) returns (r: CompactionResult)
    ensures var reports := Monitored(sha, [QuietInput(2), QuietInput(1)]);
      && MonitorHolds(sha, reports) && |reports| == 2 && reports[0].input.epoch == 2
      && Compacts(sha, reports, 2, 3, r) && r.prunedCount == 2 && r.anchor.anchorEpoch == 1
  {
    var inputs := [QuietInput(2), QuietInput(1)];
    MonitoredHolds(sha, inputs);
    var reports := Monitored(sha, inputs);
    assert reports[..2] == reports && reports[0].input == inputs[0] && reports[1].input == inputs[1];
    var anchor := AnchorExists(sha, PrunedOf(reports));
    var bytes := CertificateBytes(CompactionResult(3, 2, 0, anchor, Genesis()));
    r := CompactionResult(3, 2, 0, anchor, sha(bytes));
    assert CertificateBytes(r) == bytes;
  }

  /** An epoch in which nothing went wrong. */
  function QuietInput(epoch: U64): HealthInput {
    HealthInput(epoch, 0, 0, 10, 0, 0, 0, 3)
  }

  /** Pruning splits verification: a stretch verifies exactly when its pruned prefix does and
      the retained suffix continues from the prefix's last report hash. */
  lemma PruningSplitsVerification(sha: Hash, reports: seq<HealthReport>, n: nat)
    requires 0 < n <= |reports|
    ensures SegmentHolds(sha, reports) <==>
      SegmentHolds(sha, reports[..n]) && Linked(sha, reports[n - 1].reportHash, ReportLinks(reports[n..]))
  {
    assert ReportLinks(reports) == ReportLinks(reports[..n]) + ReportLinks(reports[n..]);
    LinkedConcat(sha, reports[0].prevHash, ReportLinks(reports[..n]), ReportLinks(reports[n..]));
  }

  lemma PrunedSegmentHolds(sha: Hash, reports: seq<HealthReport>, n: nat)
    requires n <= |reports| && SegmentHolds(sha, reports)
    ensures SegmentHolds(sha, reports[..n])
  {
    if n > 0 {
      PruningSplitsVerification(sha, reports, n);
    }
  }

  /** Verified stretches whose pruned records agree agree on the full reports, wherever in a
      chain they start. */
  lemma PrunedRecordsBindReports(sha: Hash, a: seq<HealthReport>, b: seq<HealthReport>)
    requires SegmentHolds(sha, a) && SegmentHolds(sha, b) && PrunedOf(a) == PrunedOf(b)
    ensures a == b || CollisionBetween(sha, ReportLinks(a), ReportLinks(b))
  {
    assert |a| == |b|;
    if a != [] {
      assert PrunedOf(a)[|a| - 1] == PrunedOf(b)[|b| - 1];
      SameTipSameChain(sha, a[0].prevHash, ReportLinks(a), b[0].prevHash, ReportLinks(b));
      if ReportLinks(a) == ReportLinks(b) {
        ReportLinksInjective(a, b);
      }
    }
  }

  /** The collision, if any, is among the strings hashed for one of the two compactions: the
      certificate, the anchor, or the pruned reports themselves. */
  ghost predicate CompactionCollision(sha: Hash, a: seq<HealthReport>, r: CompactionResult,
                                      b: seq<HealthReport>, s: CompactionResult) {
    || Collision(sha, CertificateBytes(r), CertificateBytes(s))
    || CollisionBetween(sha, AnchorLinks(sha, PrunedOf(a)), AnchorLinks(sha, PrunedOf(b)))
    || CollisionBetween(sha, ReportLinks(a), ReportLinks(b))
  }

  /** One 32-byte certificate commits to everything pruned: equal certificates mean equal
      counts and identical pruned reports, or an explicit collision. */
  lemma CertificateBindsPrunedReports(sha: Hash,
      a: seq<HealthReport>, i: nat, e: U64, r: CompactionResult,
      b: seq<HealthReport>, j: nat, f: U64, s: CompactionResult)
    requires SegmentHolds(sha, a) && Compacts(sha, a, i, e, r)
    requires SegmentHolds(sha, b) && Compacts(sha, b, j, f, s)
    requires r.certificateHash == s.certificateHash
    ensures var p, q := a[..Pruned(a, i)], b[..Pruned(b, j)];
      (p == q && r == s && e == f && |a| == |b|) || CompactionCollision(sha, p, r, q, s)
  {
    var p, q := a[..Pruned(a, i)], b[..Pruned(b, j)];
    PrunedSegmentHolds(sha, a, |p|);
    PrunedSegmentHolds(sha, b, |q|);
    if CertificateBytes(r) == CertificateBytes(s) {
      CertificateBytesInjective(r, s);
      RollingHashBinds(sha, PrunedOf(p), PrunedOf(q));
      if PrunedOf(p) == PrunedOf(q) {
        PrunedRecordsBindReports(sha, p, q);
      }
    }
  }

  // ---------------------------------------------------------------- the compaction log

  function LogBody(r: CompactionResult): ByteString {
    Be8(r.compactionEpoch) + Be8(r.prunedCount) + Be8(r.retainedCount) + r.certificateHash
  }

  lemma LogBodyCertificate(r: CompactionResult, s: CompactionResult)
    requires LogBody(r) == LogBody(s)
    ensures r.certificateHash == s.certificateHash
  {
    SplitEqual(Be8(r.compactionEpoch) + Be8(r.prunedCount) + Be8(r.retainedCount),
               Be8(s.compactionEpoch) + Be8(s.prunedCount) + Be8(s.retainedCount),
               r.certificateHash, s.certificateHash);
  }

  type LogEntry = Chained<CompactionResult>

  function LogLinks(es: seq<LogEntry>): seq<Link> {
    LinksOf(LogBody, es)
  }

  /** A compaction that took place: its input reports and request. */
  datatype Compaction = Compaction(reports: seq<HealthReport>, pruneCount: nat, epoch: U64)

  /** The log entries are the outcomes of the compactions, each of a verified stretch. */
  ghost predicate Documents(sha: Hash, es: seq<LogEntry>, cs: seq<Compaction>) {
    && |es| == |cs|
    && forall i :: 0 <= i < |es| ==> Documented(sha, cs[i], es[i])
  }

  function PrunedBy(c: Compaction): seq<HealthReport> {
    c.reports[..Pruned(c.reports, c.pruneCount)]
  }

  /** The same reports were pruned, or the hashed strings of the two compactions collide. */
  ghost predicate SamePruned(sha: Hash, c: Compaction, e: LogEntry, d: Compaction, f: LogEntry) {
    PrunedBy(c) == PrunedBy(d) || CompactionCollision(sha, PrunedBy(c), e.content, PrunedBy(d), f.content)
  }

  ghost predicate Documented(sha: Hash, c: Compaction, e: LogEntry) {
    SegmentHolds(sha, c.reports) && Compacts(sha, c.reports, c.pruneCount, c.epoch, e.content)
  }

  lemma SameEntrySamePruned(sha: Hash, c: Compaction, e: LogEntry, d: Compaction, f: LogEntry)
    requires Documented(sha, c, e) && Documented(sha, d, f) && LogBody(e.content) == LogBody(f.content)
    ensures SamePruned(sha, c, e, d, f)
  {
    LogBodyCertificate(e.content, f.content);
    CertificateBindsPrunedReports(sha, c.reports, c.pruneCount, c.epoch, e.content,
                                  d.reports, d.pruneCount, d.epoch, f.content);
  }

  /** The tip of the compaction log commits to every report ever pruned: two verified logs with
      the same tip have the same length and pruned the same reports in every compaction, up to
      an explicit collision in the logs or in that compaction, or a preimage of genesis. */
  lemma LogTipBindsPrunedReports(sha: Hash, es: seq<LogEntry>, cs: seq<Compaction>,
                                 fs: seq<LogEntry>, ds: seq<Compaction>)
    requires Documents(sha, es, cs) && Documents(sha, fs, ds)
    requires LogHolds(sha, LogBody, es) && LogHolds(sha, LogBody, fs)
    requires LastHash(es) == LastHash(fs)
    ensures (|cs| == |ds| && forall i :: 0 <= i < |cs| ==> SamePruned(sha, cs[i], es[i], ds[i], fs[i]))
            || CollisionBetween(sha, LogLinks(es), LogLinks(fs))
            || HashesTo(sha, LogLinks(es) + LogLinks(fs), Genesis())
  {
    LastHashBinds(sha, LogBody, es, fs);
    if SameBodies(LogBody, es, fs) {
      forall i | 0 <= i < |cs|
        ensures SamePruned(sha, cs[i], es[i], ds[i], fs[i])
      {
        SameEntrySamePruned(sha, cs[i], es[i], ds[i], fs[i]);
      }
    }
  }

  /** The sum of the pruned counts. */
  function TotalPruned(es: seq<LogEntry>): nat {
    if es == [] then 0 else TotalPruned(es[..|es| - 1]) + es[|es| - 1].content.prunedCount
  }

  class GossipHealthCompactionLog {
    const sha: Hash
    var entries: seq<LogEntry>

    constructor (sha: Hash)
      ensures this.sha == sha && entries == []
    {
      this.sha := sha;
      entries := [];
    }

    method Append(result: CompactionResult) returns (entry: LogEntry)
      modifies this`entries
      ensures entries == old(entries) + [entry] && entry == Next(sha, LogBody, old(entries), result)
      ensures TotalPruned(entries) == TotalPruned(old(entries)) + result.prunedCount
      ensures LogHolds(sha, LogBody, entries) <==> LogHolds(sha, LogBody, old(entries))
    {
      var prev := if entries == [] then Genesis() else entries[|entries| - 1].hash;
      entry := Chained(result, sha(prev + LogBody(result)), prev);
      LogGrows(sha, LogBody, entries, result);
      assert (entries + [entry])[..|entries|] == entries;
      entries := entries + [entry];
    }

    method VerifyChain() returns (valid: bool, broken: Option<nat>)
      ensures valid <==> LogHolds(sha, LogBody, entries)
      ensures valid ==> broken == None
      ensures !valid ==> broken.Some? && FirstBroken(sha, Genesis(), LogLinks(entries), broken.value)
    {
      valid, broken := VerifyLog(sha, LogBody, entries);
    }
  }
}
