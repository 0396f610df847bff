/** Certificates over windows of epoch seals, and the 24-byte telemetry frame that carries
    their totals and the share of each compactor. */
module TelemetryEncoder {
  import opened Wrappers
  import opened Bytes
  import opened Arithmetic
  import opened HashChain
  import opened EpochSeal

  // ---------------------------------------------------------------- certificates

  datatype Certificate = Certificate(
    epochStart: U64, epochEnd: U64, epochCount: U64, chainsValid: bool,
    total: U64, spsf: U64, health: U64, resonance: U64, terminalHash: Digest,
    certificateHash: Digest)

  function CertificateBytes(c: Certificate): ByteString {
    Be8(c.epochStart) + Be8(c.epochEnd) + Be8(c.epochCount) + [Flag(c.chainsValid)]
    + Be8(c.total) + Be8(c.spsf) + Be8(c.health) + Be8(c.resonance) + c.terminalHash
  }

  function LogBody(c: Certificate): ByteString {
    c.certificateHash + Be8(c.epochStart) + Be8(c.epochEnd) + [Flag(c.chainsValid)]
  }

  /** `c` certifies the window: its totals are the running totals of the window's last seal, or
      zero for an empty window. */
  predicate Certifies(sha: Hash, seals: seq<CompactionEpochSeal>, c: Certificate) {
    && c.epochCount == |seals|
    && c.certificateHash == sha(CertificateBytes(c))
    && if seals == [] then
         c.total == 0 && c.spsf == 0 && c.health == 0 && c.resonance == 0 && c.terminalHash == Genesis()
       else
         var s := seals[|seals| - 1];
         c.total == s.totalPruned && c.spsf == s.spsfPruned && c.health == s.healthPruned
         && c.resonance == s.resonancePruned && c.terminalHash == s.sealHash
  }

  class CertifierLog {
    const sha: Hash
    var entries: seq<Chained<Certificate>>

    constructor (sha: Hash)
      ensures this.sha == sha && entries == []
    {
      this.sha := sha;
      entries := [];
    }

    method CertifyWindow(seals: seq<CompactionEpochSeal>, epochStart: U64, epochEnd: U64, chainsValid: bool)
      returns (c: Chained<Certificate>)
      requires |seals| < U64_BOUND
      modifies this`entries
      ensures entries == old(entries) + [c] && c == Next(sha, LogBody, old(entries), c.content)
      ensures Certifies(sha, seals, c.content) && c.content.chainsValid == chainsValid
      ensures c.content.epochStart == epochStart && c.content.epochEnd == epochEnd
      ensures LogHolds(sha, LogBody, entries) <==> LogHolds(sha, LogBody, old(entries))
    {
      var certificate := Issue(seals, epochStart, epochEnd, chainsValid);
      LogGrows(sha, LogBody, entries, certificate);
      c := Next(sha, LogBody, entries, certificate);
      entries := entries + [c];
    }

    method Issue(seals: seq<CompactionEpochSeal>, epochStart: U64, epochEnd: U64, chainsValid: bool)
      returns (c: Certificate)
      requires |seals| < U64_BOUND
      ensures Certifies(sha, seals, c)
      ensures c.epochStart == epochStart && c.epochEnd == epochEnd && c.chainsValid == chainsValid
    {
      var total, spsf, health, resonance, terminal := 0, 0, 0, 0, Genesis();
      if seals != [] {
        var s := seals[|seals| - 1];
        total, spsf, health, resonance := s.totalPruned, s.spsfPruned, s.healthPruned, s.resonancePruned;
        terminal := s.sealHash;
      }
      c := Certificate(epochStart, epochEnd, |seals|, chainsValid, total, spsf, health, resonance, terminal, Genesis());
      var bytes := CertificateBytes(c);
      c := c.(certificateHash := sha(bytes));
      assert CertificateBytes(c) == bytes;
    }

    method VerifyChain() returns (valid: bool, broken: Option<nat>)
      ensures valid <==> LogHolds(sha, LogBody, entries)
      ensures valid ==> broken == None
      ensures !valid ==> broken.Some? && FirstBroken(sha, Genesis(), LinksOf(LogBody, entries), broken.value)
    {
      valid, broken := VerifyLog(sha, LogBody, entries);
    }
  }

  // ---------------------------------------------------------------- the frame

  type TelemetryFrame = f: ByteString | |f| == 24 witness seq(24, _ => 0)

  /** The quotient before the cap; the product wraps at 64 bits. */
  function Quota(part: U64, total: U64): nat {
    (part * 100 % U64_BOUND) / (if total > 1 then total else 1)
  }

  /** A compactor's share in percent. */
  function Share(part: U64, total: U64): (b: Byte)
    ensures b <= 100
  {
    if Quota(part, total) < 100 then Quota(part, total) else 100
  }

  function FrameOf(c: Certificate): TelemetryFrame {
    Be8(c.epochEnd) + Be8(c.total) + [Flag(c.chainsValid)]
    + [Share(c.spsf, c.total), Share(c.health, c.total), Share(c.resonance, c.total)] + c.certificateHash[..4]
  }

  datatype Telemetry = Telemetry(
    epochEnd: nat, total: nat, chainsValid: bool, spsfPct: Byte, healthPct: Byte, resPct: Byte, prefix: ByteString)

  function Decode(f: TelemetryFrame): Telemetry {
    Telemetry(FromBigEndian(f[..8]), FromBigEndian(f[8..16]), f[16] == 1, f[17], f[18], f[19], f[20..24])
  }

  /** Fills the frame in place. */
  method Encode(c: Certificate) returns (f: TelemetryFrame)
    ensures f == FrameOf(c)
  {
    var spsfPct, healthPct, resPct := Share(c.spsf, c.total), Share(c.health, c.total), Share(c.resonance, c.total);
    var bytes := new Byte[24](_ => 0);
    var end, total := Be8(c.epochEnd), Be8(c.total);
    forall i | 0 <= i < 8 { bytes[i] := end[i]; }
    forall i | 0 <= i < 8 { bytes[8 + i] := total[i]; }
    bytes[16] := if c.chainsValid then 1 else 0;
    bytes[17] := spsfPct;
    bytes[18] := healthPct;
    bytes[19] := resPct;
    forall i | 0 <= i < 4 { bytes[20 + i] := c.certificateHash[i]; }
    f := bytes[..];
    assert f == FrameOf(c);
  }

  lemma FrameRoundTrip(c: Certificate)
    ensures Decode(FrameOf(c)) == Telemetry(c.epochEnd, c.total, c.chainsValid,
      Share(c.spsf, c.total), Share(c.health, c.total), Share(c.resonance, c.total), c.certificateHash[..4])
  {
    var f := FrameOf(c);
    assert f[..8] == Be8(c.epochEnd) && f[8..16] == Be8(c.total) && f[20..24] == c.certificateHash[..4];
    Be8RoundTrip(c.epochEnd);
    Be8RoundTrip(c.total);
  }

  /** Three parts of a whole, each rounded down to a percentage, lose at most two points, and
      none of them needs the cap. */
  lemma SharesOfWhole(a: U64, b: U64, c: U64, total: U64)
    requires a + b + c == total && 100 * total < U64_BOUND
    ensures total > 0 ==> 98 <= Share(a, total) + Share(b, total) + Share(c, total) <= 100
    ensures total == 0 ==> Share(a, total) == Share(b, total) == Share(c, total) == 0
    ensures Share(a, total) == Quota(a, total) && Share(b, total) == Quota(b, total)
    ensures Share(c, total) == Quota(c, total)
  {
    if total > 0 {
      ShareBounds(a, total);
      ShareBounds(b, total);
      ShareBounds(c, total);
      ThreeFloors(Quota(a, total), Quota(b, total), Quota(c, total), a, b, c, total);
    }
  }

  /** Three percentages rounded down from parts of a whole. */
  lemma ThreeFloors(p: nat, q: nat, r: nat, a: nat, b: nat, c: nat, total: nat)
    requires p * total <= 100 * a < p * total + total
    requires q * total <= 100 * b < q * total + total
    requires r * total <= 100 * c < r * total + total
    requires a + b + c == total
    ensures 98 <= p + q + r <= 100
  {
    var sum := p + q + r;
    assert sum * total == p * total + q * total + r * total;
    assert (sum + 3) * total == sum * total + 3 * total;
    Scale(101, sum, total);
    Scale(sum + 3, 100, total);
  }

  lemma ShareBounds(part: U64, total: U64)
    requires part <= total && 0 < total && 100 * total < U64_BOUND
    ensures var q := Quota(part, total);
      q <= 100 && q * total <= 100 * part < q * total + total
  {
    assert part * 100 % U64_BOUND == part * 100;
    QuotientBounds(part * 100, total);
    Quotient(part * 100, total, 101);
    var q := Quota(part, total);
    assert (q + 1) * total == q * total + total;
  }

  /** Beyond that the product wraps: the share of a part is the true percentage exactly when a
      hundred times the part fits in 64 bits. */
  lemma ShareExactly(part: U64, total: U64)
    requires part <= total && total > 0
    ensures Share(part, total) == part * 100 / total <==> part * 100 < U64_BOUND
    ensures Share(0x8000_0000_0000_0000, 0x8000_0000_0000_0000) == 0
  {
    WrappedPercentage(part, total, U64_BOUND);
    HalfRangeReadsZero();
  }

  lemma HalfRangeReadsZero()
    ensures Share(0x8000_0000_0000_0000, 0x8000_0000_0000_0000) == 0
  {
  }

  /** Both ends of the range occur. */
  lemma SharesCanLoseTwoPoints()
    ensures Share(1, 6) + Share(1, 6) + Share(4, 6) == 98
    ensures Share(1, 4) + Share(1, 4) + Share(2, 4) == 100
  {
    assert Quota(1, 6) == 16 && Quota(4, 6) == 66;
    assert Quota(1, 4) == 25 && Quota(2, 4) == 50;
  }

  /** End to end: for any window of an intact seal chain whose last totals neither saturate nor
      overflow the percentage, the frame decodes to percentages that add up to 98, 99 or 100,
      or to 0 when nothing was pruned. */
  lemma TelemetryOfChain(sha: Hash, chain: seq<CompactionEpochSeal>, lo: nat, hi: nat, c: Certificate)
    requires ChainHolds(sha, chain) && lo < hi <= |chain| && Certifies(sha, chain[lo..hi], c)
    requires var s := chain[hi - 1]; 100 * (s.spsfPruned + s.healthPruned + s.resonancePruned) < U64_BOUND
    ensures var t := Decode(FrameOf(c));
      && t.total == c.spsf + c.health + c.resonance
      && t.epochEnd == c.epochEnd
      && (t.total > 0 ==> 98 <= t.spsfPct + t.healthPct + t.resPct <= 100)
      && (t.total == 0 ==> t.spsfPct == t.healthPct == t.resPct == 0)
  {
    TotalOfWindow(sha, chain, lo, hi, c);
    FrameRoundTrip(c);
    SharesOfWhole(c.spsf, c.health, c.resonance, c.total);
  }

  lemma TotalOfWindow(sha: Hash, chain: seq<CompactionEpochSeal>, lo: nat, hi: nat, c: Certificate)
    requires ChainHolds(sha, chain) && lo < hi <= |chain| && Certifies(sha, chain[lo..hi], c)
    ensures c.spsf == chain[hi - 1].spsfPruned && c.health == chain[hi - 1].healthPruned
    ensures c.resonance == chain[hi - 1].resonancePruned
    ensures c.total == SaturatedTotal(c.spsf, c.health, c.resonance)
  {
    assert SealHolds(sha, chain, hi - 1);
    assert chain[lo..hi][hi - lo - 1] == chain[hi - 1];
  }
}
