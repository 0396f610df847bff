/** Validation of incoming frames against a checksum and an epoch watermark. */
module BroadcastValidator {
  import opened Wrappers
  import opened Bytes
  import opened HashChain
  import opened EpochLedger
  import opened AuditSeal
  import opened Broadcaster

  datatype Verdict = Valid | ChecksumFail | EpochRegressed | ChecksumAndEpoch
  {
    function AsByte(): Byte {
      match this
      case Valid => 0
      case ChecksumFail => 1
      case EpochRegressed => 2
      case ChecksumAndEpoch => 3
    }
  }

  /** The verdict on a frame, given the largest epoch accepted so far. */
  function Judge(sha: Hash, mark: Option<nat>, f: Frame): Verdict {
    var epochOk := mark == None || EpochOf(f) >= mark.value;
    match (ChecksumHolds(sha, f), epochOk)
    case (true, true) => Valid
    case (false, true) => ChecksumFail
    case (true, false) => EpochRegressed
    case (false, false) => ChecksumAndEpoch
  }

  function NextMark(sha: Hash, mark: Option<nat>, f: Frame): Option<nat> {
    if Judge(sha, mark, f) == Valid then Some(EpochOf(f)) else mark
  }

  /** The watermark after a sequence of frames. */
  function Watermark(sha: Hash, frames: seq<Frame>): Option<nat> {
    if frames == [] then None
    else NextMark(sha, Watermark(sha, frames[..|frames| - 1]), frames[|frames| - 1])
  }

  /** The verdict on frame `n` of a run. */
  function VerdictAt(sha: Hash, frames: seq<Frame>, n: nat): Verdict
    requires n < |frames|
  {
    Judge(sha, Watermark(sha, frames[..n]), frames[n])
  }

  /** `m` is the maximum epoch over the accepted frames of a run. */
  ghost predicate MaximumAccepted(sha: Hash, frames: seq<Frame>, m: Option<nat>) {
    && (forall i :: 0 <= i < |frames| && VerdictAt(sha, frames, i) == Valid ==>
          m.Some? && EpochOf(frames[i]) <= m.value)
    && (m.Some? ==> exists i :: 0 <= i < |frames| && VerdictAt(sha, frames, i) == Valid
                             && EpochOf(frames[i]) == m.value)
  }

  /** `m` is the maximum epoch over the intact frames of a run. */
  ghost predicate MaximumIntact(sha: Hash, frames: seq<Frame>, m: Option<nat>) {
    && (forall i :: 0 <= i < |frames| && ChecksumHolds(sha, frames[i]) ==>
          m.Some? && EpochOf(frames[i]) <= m.value)
    && (m.Some? ==> exists i :: 0 <= i < |frames| && ChecksumHolds(sha, frames[i])
                             && EpochOf(frames[i]) == m.value)
  }

  lemma VerdictOfPrefix(sha: Hash, frames: seq<Frame>, n: nat, i: nat)
    requires i < n <= |frames|
    ensures VerdictAt(sha, frames[..n], i) == VerdictAt(sha, frames, i)
  {
    assert frames[..n][..i] == frames[..i];
  }

  /** The watermark is the maximum epoch over all intact frames seen so far: an intact frame
      that was rejected lies below it. */
  lemma {:induction false} WatermarkIsMaximumIntact(sha: Hash, frames: seq<Frame>)
    ensures MaximumIntact(sha, frames, Watermark(sha, frames))
  {
    if frames != [] {
      var n := |frames| - 1;
      var front, mark := frames[..n], Watermark(sha, frames[..n]);
      WatermarkIsMaximumIntact(sha, front);
      forall i | 0 <= i < n
        ensures frames[i] == front[i]
      {
      }
      if Judge(sha, mark, frames[n]) != Valid && mark.Some? {
        var i :| 0 <= i < n && ChecksumHolds(sha, front[i]) && EpochOf(front[i]) == mark.value;
        assert ChecksumHolds(sha, frames[i]) && EpochOf(frames[i]) == mark.value;
      }
    }
  }

  lemma {:induction false} AcceptedBelowWatermark(sha: Hash, frames: seq<Frame>, i: nat)
    requires i < |frames| && VerdictAt(sha, frames, i) == Valid
    ensures Watermark(sha, frames).Some? && EpochOf(frames[i]) <= Watermark(sha, frames).value
    decreases |frames|
  {
    var n := |frames| - 1;
    if i < n {
      VerdictOfPrefix(sha, frames, n, i);
      AcceptedBelowWatermark(sha, frames[..n], i);
    }
  }

  lemma {:induction false} WatermarkWasAccepted(sha: Hash, frames: seq<Frame>) returns (i: nat)
    requires Watermark(sha, frames).Some?
    ensures i < |frames| && VerdictAt(sha, frames, i) == Valid && EpochOf(frames[i]) == Watermark(sha, frames).value
    decreases |frames|
  {
    var n := |frames| - 1;
    i := n;
    if VerdictAt(sha, frames, n) != Valid {
      i := WatermarkWasAccepted(sha, frames[..n]);
      VerdictOfPrefix(sha, frames, n, i);
    }
  }

  /** And it is the maximum epoch over the frames accepted so far. */
  lemma WatermarkIsMaximumAccepted(sha: Hash, frames: seq<Frame>)
    ensures MaximumAccepted(sha, frames, Watermark(sha, frames))
  {
    forall i | 0 <= i < |frames| && VerdictAt(sha, frames, i) == Valid
      ensures Watermark(sha, frames).Some? && EpochOf(frames[i]) <= Watermark(sha, frames).value
    {
      AcceptedBelowWatermark(sha, frames, i);
    }
    if Watermark(sha, frames).Some? {
      var i := WatermarkWasAccepted(sha, frames);
    }
  }

  /** A closed form for acceptance: frame `n` is accepted exactly when it is intact and no
      earlier intact frame carries a larger epoch. */
  lemma AcceptedExactly(sha: Hash, frames: seq<Frame>, n: nat)
    requires n < |frames|
    ensures VerdictAt(sha, frames, n) == Valid <==>
      ChecksumHolds(sha, frames[n]) &&
      forall i :: 0 <= i < n && ChecksumHolds(sha, frames[i]) ==> EpochOf(frames[i]) <= EpochOf(frames[n])
  {
    WatermarkIsMaximumIntact(sha, frames[..n]);
    var mark := Watermark(sha, frames[..n]);
    if mark.Some? {
      var i :| 0 <= i < n && ChecksumHolds(sha, frames[..n][i]) && EpochOf(frames[..n][i]) == mark.value;
      assert ChecksumHolds(sha, frames[i]);
    }
    forall i | 0 <= i < n && ChecksumHolds(sha, frames[i])
      ensures mark.Some? && EpochOf(frames[i]) <= mark.value
    {
      assert frames[..n][i] == frames[i];
    }
  }

  /** An earlier intact frame of a run carries a larger epoch. */
  predicate Outdated(sha: Hash, frames: seq<Frame>, n: nat)
    requires n < |frames|
  {
    exists i :: 0 <= i < n && ChecksumHolds(sha, frames[i]) && EpochOf(frames[i]) > EpochOf(frames[n])
  }

  /** All four verdicts in closed form, without reference to earlier verdicts. */
  lemma VerdictExactly(sha: Hash, frames: seq<Frame>, n: nat)
    requires n < |frames|
    ensures VerdictAt(sha, frames, n) ==
      match (ChecksumHolds(sha, frames[n]), Outdated(sha, frames, n))
      case (true, false) => Valid
      case (false, false) => ChecksumFail
      case (true, true) => EpochRegressed
      case (false, true) => ChecksumAndEpoch
  {
    WatermarkIsMaximumIntact(sha, frames[..n]);
    var mark := Watermark(sha, frames[..n]);
    assert forall i :: 0 <= i < n ==> frames[..n][i] == frames[i];
    if mark.Some? {
      var i :| 0 <= i < n && ChecksumHolds(sha, frames[..n][i]) && EpochOf(frames[..n][i]) == mark.value;
      assert ChecksumHolds(sha, frames[i]) && EpochOf(frames[i]) == mark.value;
    }
    if Outdated(sha, frames, n) {
      var i :| 0 <= i < n && ChecksumHolds(sha, frames[i]) && EpochOf(frames[i]) > EpochOf(frames[n]);
      assert ChecksumHolds(sha, frames[..n][i]);
    }
  }

  /** Accepted epochs never decrease. */
  lemma AcceptedEpochsNeverDecrease(sha: Hash, frames: seq<Frame>, i: nat, j: nat)
    requires i < j < |frames|
    requires VerdictAt(sha, frames, i) == Valid && VerdictAt(sha, frames, j) == Valid
    ensures EpochOf(frames[i]) <= EpochOf(frames[j])
  {
    AcceptedExactly(sha, frames, i);
    AcceptedExactly(sha, frames, j);
  }

  function FramesOf(sha: Hash, seals: seq<CompactionAuditSeal>): (fs: seq<Frame>)
    ensures |fs| == |seals|
  {
    seq(|seals|, i requires 0 <= i < |seals| => FrameOf(sha, seals[i]))
  }

  /** A broadcast of seals is accepted frame by frame exactly when their end epochs do not
      decrease. */
  lemma BroadcastAcceptedExactly(sha: Hash, seals: seq<CompactionAuditSeal>)
    ensures (forall n :: 0 <= n < |seals| ==> VerdictAt(sha, FramesOf(sha, seals), n) == Valid) <==>
            (forall i, j :: 0 <= i <= j < |seals| ==> seals[i].epochEnd <= seals[j].epochEnd)
  {
    var frames := FramesOf(sha, seals);
    forall n | 0 <= n < |seals|
      ensures ChecksumHolds(sha, frames[n]) && EpochOf(frames[n]) == seals[n].epochEnd
      ensures VerdictAt(sha, frames, n) == Valid <==> forall i :: 0 <= i < n ==> seals[i].epochEnd <= seals[n].epochEnd
    {
      forall i | 0 <= i <= n
        ensures ChecksumHolds(sha, frames[i]) && EpochOf(frames[i]) == seals[i].epochEnd
      {
        FrameRoundTrip(sha, seals[i]);
      }
      AcceptedExactly(sha, frames, n);
    }
  }

  /** From ledger to acceptance: the seals of consecutive windows of a ledger whose epochs do
      not decrease are all accepted when they are broadcast in order. */
  lemma LedgerBroadcastAccepted(sha: Hash, entries: seq<LedgerEntry>, cuts: seq<nat>, seals: seq<CompactionAuditSeal>)
    requires |cuts| == |seals| + 1
    requires forall i :: 0 <= i < |cuts| ==> cuts[i] <= |entries|
    requires forall i, j :: 0 <= i < j < |cuts| ==> cuts[i] < cuts[j]
    requires forall i, j :: 0 <= i <= j < |entries| ==> entries[i].epoch <= entries[j].epoch
    requires forall i :: 0 <= i < |seals| ==> Seals(sha, entries[cuts[i]..cuts[i + 1]], seals[i])
    ensures forall n :: 0 <= n < |seals| ==> VerdictAt(sha, FramesOf(sha, seals), n) == Valid
  {
    forall i | 0 <= i < |seals|
      ensures 1 <= cuts[i + 1] <= |entries| && seals[i].epochEnd == entries[cuts[i + 1] - 1].epoch
    {
      assert cuts[i] < cuts[i + 1] <= |entries|;
      var w := entries[cuts[i]..cuts[i + 1]];
      assert Seals(sha, w, seals[i]);
      assert w[|w| - 1] == entries[cuts[i + 1] - 1];
    }
    forall i, j | 0 <= i <= j < |seals|
      ensures seals[i].epochEnd <= seals[j].epochEnd
    {
      assert i < j ==> cuts[i + 1] < cuts[j + 1];
    }
    BroadcastAcceptedExactly(sha, seals);
  }

  datatype ValidationRecord = ValidationRecord(frameEpochEnd: nat, verdict: Verdict, frame: Frame)

  function ValidationBody(r: ValidationRecord): ByteString {
    BigEndian(r.frameEpochEnd, 8) + [r.verdict.AsByte()] + r.frame
  }

  /** The record of frame `n` of a run. */
  function RecordAt(sha: Hash, frames: seq<Frame>, n: nat): ValidationRecord
    requires n < |frames|
  {
    ValidationRecord(EpochOf(frames[n]), VerdictAt(sha, frames, n), frames[n])
  }

  function RecordsOf(sha: Hash, frames: seq<Frame>): (rs: seq<ValidationRecord>)
    ensures |rs| == |frames|
  {
    seq(|frames|, i requires 0 <= i < |frames| => RecordAt(sha, frames, i))
  }

  lemma RecordsGrow(sha: Hash, frames: seq<Frame>, f: Frame)
    ensures RecordsOf(sha, frames + [f])
         == RecordsOf(sha, frames)
            + [ValidationRecord(EpochOf(f), Judge(sha, Watermark(sha, frames), f), f)]
  {
    var all := frames + [f];
    assert all[..|frames|] == frames;
    forall i | 0 <= i < |frames|
      ensures RecordAt(sha, all, i) == RecordAt(sha, frames, i)
    {
      VerdictOfPrefix(sha, all, |frames|, i);
    }
  }

  /** One frame more: the mark moves on, and the log of the frames grows by one record. */
  lemma FrameSeen(sha: Hash, frames: seq<Frame>, f: Frame)
    ensures var mark := Watermark(sha, frames);
      var record := ValidationRecord(EpochOf(f), Judge(sha, mark, f), f);
      var log := ChainOf(sha, ValidationBody, RecordsOf(sha, frames));
      && Watermark(sha, frames + [f]) == NextMark(sha, mark, f)
      && RecordAt(sha, frames + [f], |frames|) == record
      && ChainOf(sha, ValidationBody, RecordsOf(sha, frames + [f])) == log + [Next(sha, ValidationBody, log, record)]
  {
    assert (frames + [f])[..|frames|] == frames;
    RecordsGrow(sha, frames, f);
    ChainGrows(sha, ValidationBody, RecordsOf(sha, frames),
               ValidationRecord(EpochOf(f), Judge(sha, Watermark(sha, frames), f), f));
  }

  class CompactionBroadcastValidator {
    const sha: Hash
    var log: seq<Chained<ValidationRecord>>
    var lastEpochEnd: Option<nat>
    ghost var seen: seq<Frame>

    /** The tracked epoch and every logged verdict are those of the frames seen so far. */
    ghost predicate Tracks()
      reads this
    {
      lastEpochEnd == Watermark(sha, seen) && log == ChainOf(sha, ValidationBody, RecordsOf(sha, seen))
    }

    constructor (sha: Hash)
      ensures this.sha == sha && log == [] && seen == [] && Tracks()
    {
      this.sha := sha;
      log := [];
      lastEpochEnd := None;
      seen := [];
    }

    method Validate(frame: Frame) returns (r: Chained<ValidationRecord>)
      requires Tracks()
      modifies this
      ensures Tracks() && seen == old(seen) + [frame] && log == old(log) + [r]
      ensures r.content == RecordAt(sha, seen, |seen| - 1)
    {
      FrameSeen(sha, seen, frame);
      var verdict := VerdictOn(frame);
      if verdict == Valid {
        lastEpochEnd := Some(FromBigEndian(frame[..8]));
      }
      r := Next(sha, ValidationBody, log, ValidationRecord(FromBigEndian(frame[..8]), verdict, frame));
      log := log + [r];
      seen := seen + [frame];
    }

    /** The verdict on a frame: checksum and epoch against the tracked one. */
    method VerdictOn(frame: Frame) returns (verdict: Verdict)
      ensures verdict == Judge(sha, lastEpochEnd, frame)
    {
      var checksumOk := Decode(sha, frame).Decoded?;
      var frameEpochEnd := FromBigEndian(frame[..8]);
      var epochOk := match lastEpochEnd { case None => true case Some(p) => frameEpochEnd >= p };
      verdict := match (checksumOk, epochOk) {
        case (true, true) => Valid
        case (false, true) => ChecksumFail
        case (true, false) => EpochRegressed
        case (false, false) => ChecksumAndEpoch
      };
    }

    method VerifyChain() returns (valid: bool, broken: Option<nat>)
      ensures valid <==> LogHolds(sha, ValidationBody, log)
      ensures valid ==> broken == None
      ensures !valid ==> broken.Some? && FirstBroken(sha, Genesis(), LinksOf(ValidationBody, log), broken.value)
    {
      valid, broken := VerifyLog(sha, ValidationBody, log);
    }
  }
}
