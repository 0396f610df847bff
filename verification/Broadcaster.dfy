/** The 32-byte broadcast frame of an audit seal, and the log of frames sent. */
module Broadcaster {
  import opened Bytes
  import opened HashChain
  import opened AuditSeal

  type Frame = f: ByteString | |f| == 32 witness seq(32, _ => 0)

  datatype DecodedFrame = DecodedFrame(
    epochEnd: nat, epochCount: nat, chainsValid: bool, sealPrefix: ByteString, terminalPrefix: ByteString)

  datatype DecodeResult = Decoded(frame: DecodedFrame) | ChecksumMismatch

  /** Bytes 0 to 24: the content that the checksum covers. */
  function FrameContent(s: CompactionAuditSeal): (b: ByteString)
    ensures |b| == 25
  {
    Be8(s.epochEnd) + Be8(s.epochCount) + [Flag(s.chainsValid)] + s.sealHash[..4] + s.terminalHash[..4]
  }

  function FrameOf(sha: Hash, s: CompactionAuditSeal): Frame {
    FrameContent(s) + sha(FrameContent(s))[..7]
  }

  predicate ChecksumHolds(sha: Hash, f: Frame) {
    f[25..32] == sha(f[..25])[..7]
  }

  function EpochOf(f: Frame): nat {
    FromBigEndian(f[..8])
  }

  function Decode(sha: Hash, f: Frame): DecodeResult {
    if !ChecksumHolds(sha, f) then ChecksumMismatch
    else Decoded(DecodedFrame(EpochOf(f), FromBigEndian(f[8..16]), f[16] != 0, f[17..21], f[21..25]))
  }

  /** Fills the frame in place. */
  method EncodeFrame(sha: Hash, s: CompactionAuditSeal) returns (f: Frame)
    ensures f == FrameOf(sha, s)
  {
    var frame := new Byte[32](_ => 0);
    var end, count := Be8(s.epochEnd), Be8(s.epochCount);
    forall i | 0 <= i < 8 { frame[i] := end[i]; }
    forall i | 0 <= i < 8 { frame[8 + i] := count[i]; }
    frame[16] := Flag(s.chainsValid);
    forall i | 0 <= i < 4 { frame[17 + i] := s.sealHash[i]; }
    forall i | 0 <= i < 4 { frame[21 + i] := s.terminalHash[i]; }
    assert frame[..25] == FrameContent(s);
    var checksum := sha(frame[..25]);
    forall i | 0 <= i < 7 { frame[25 + i] := checksum[i]; }
    assert frame[..25] == FrameContent(s);
    f := frame[..];
  }

  /** Decoding a frame recovers every field that was encoded. */
  lemma FrameRoundTrip(sha: Hash, s: CompactionAuditSeal)
    ensures ChecksumHolds(sha, FrameOf(sha, s)) && EpochOf(FrameOf(sha, s)) == s.epochEnd
    ensures Decode(sha, FrameOf(sha, s)) == Decoded(DecodedFrame(
      s.epochEnd, s.epochCount, s.chainsValid, s.sealHash[..4], s.terminalHash[..4]))
  {
    var f := FrameOf(sha, s);
    assert f[..25] == FrameContent(s);
    assert f[..8] == Be8(s.epochEnd) && f[8..16] == Be8(s.epochCount);
    Be8RoundTrip(s.epochEnd);
    Be8RoundTrip(s.epochCount);
    assert f[17..21] == s.sealHash[..4] && f[21..25] == s.terminalHash[..4];
  }

  /** The parts that decoding reads, and the flag byte, make up the content of a frame. */
  lemma SameContent(f: Frame, g: Frame)
    requires f[..8] == g[..8] && f[8..16] == g[8..16] && f[16] == g[16]
    requires f[17..21] == g[17..21] && f[21..25] == g[21..25]
    ensures f[..25] == g[..25]
  {
    assert f[..25] == f[..8] + f[8..16] + [f[16]] + f[17..21] + f[21..25];
    assert g[..25] == g[..8] + g[8..16] + [g[16]] + g[17..21] + g[21..25];
  }

  /** How much of an accepted frame the decoded fields determine: everything except which
      non-zero byte stands for "valid". */
  lemma DecodeDeterminesFrame(sha: Hash, f: Frame, g: Frame)
    requires ChecksumHolds(sha, f) && ChecksumHolds(sha, g)
    ensures f == g <==> Decode(sha, f) == Decode(sha, g) && f[16] == g[16]
  {
    if Decode(sha, f) == Decode(sha, g) && f[16] == g[16] {
      FromBigEndianInjective(f[..8], g[..8]);
      FromBigEndianInjective(f[8..16], g[8..16]);
      SameContent(f, g);
      assert f == f[..25] + f[25..32] && g == g[..25] + g[25..32];
    }
  }

  /** Byte 16 is read as a flag without being checked: every encoded frame with the flag set
      has another accepted frame that decodes to the same fields. */
  lemma FlagByteIsNotUnique(sha: Hash, s: CompactionAuditSeal) returns (g: Frame)
    requires s.chainsValid
    ensures g != FrameOf(sha, s) && Decode(sha, g) == Decode(sha, FrameOf(sha, s))
  {
    var f := FrameOf(sha, s);
    FrameRoundTrip(sha, s);
    var content := f[..25][16 := 2];
    g := content + sha(content)[..7];
    assert g[..25] == content && g[25..32] == sha(content)[..7];
    assert g[..8] == f[..8] && g[8..16] == f[8..16] && g[17..21] == f[17..21] && g[21..25] == f[21..25];
    assert f[16] == Flag(s.chainsValid);
  }

  datatype BroadcastRecord = BroadcastRecord(epochEnd: U64, frame: Frame, recordHash: Digest, prevHash: Digest)

  function BroadcastLink(r: BroadcastRecord): Link {
    Link(r.prevHash, r.frame + Be8(r.epochEnd), r.recordHash)
  }

  function BroadcastLinks(rs: seq<BroadcastRecord>): (ls: seq<Link>)
    ensures |ls| == |rs|
  {
    seq(|rs|, i requires 0 <= i < |rs| => BroadcastLink(rs[i]))
  }

  /** A record that continues a log keeps it exactly as intact as it was. */
  lemma BroadcastsGrow(sha: Hash, log: seq<BroadcastRecord>, r: BroadcastRecord)
    requires Continues(sha, BroadcastLinks(log), BroadcastLink(r))
    ensures Linked(sha, Genesis(), BroadcastLinks(log + [r])) <==> Linked(sha, Genesis(), BroadcastLinks(log))
  {
    LinkedGrows(sha, Genesis(), BroadcastLinks(log), BroadcastLink(r));
    assert BroadcastLinks(log + [r]) == BroadcastLinks(log) + [BroadcastLink(r)];
  }

  class CompactionBroadcaster {
    const sha: Hash
    var log: seq<BroadcastRecord>

    constructor (sha: Hash)
      ensures this.sha == sha && log == []
    {
      this.sha := sha;
      log := [];
    }

    method Encode(seal: CompactionAuditSeal) returns (r: BroadcastRecord)
      modifies this`log
      ensures log == old(log) + [r] && r.epochEnd == seal.epochEnd && r.frame == FrameOf(sha, seal)
      ensures Continues(sha, BroadcastLinks(old(log)), BroadcastLink(r))
      ensures Linked(sha, Genesis(), BroadcastLinks(log)) <==> Linked(sha, Genesis(), BroadcastLinks(old(log)))
    {
      var frame := EncodeFrame(sha, seal);
      var prev := if log == [] then Genesis() else log[|log| - 1].recordHash;
      r := BroadcastRecord(seal.epochEnd, frame, sha(prev + (frame + Be8(seal.epochEnd))), prev);
      BroadcastsGrow(sha, log, r);
      log := log + [r];
    }
  }
}
