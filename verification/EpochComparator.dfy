/** Signed differences between consecutive reports. */
module EpochComparator {
  import opened Wrappers
  import opened Bytes
  import opened Arithmetic
  import opened HashChain
  import opened EpochReport

  /** The signed difference of two `u64` counts: the casts and the subtraction wrap. */
  function SignedDifference(newer: U64, older: U64): int {
    Wrap64(Wrap64(newer) - Wrap64(older))
  }

  /** It is the difference wrapped once, and hence the true one exactly when that fits. */
  lemma SignedDifferenceExactly(newer: U64, older: U64)
    ensures SignedDifference(newer, older) == Wrap64(newer - older)
    ensures SignedDifference(newer, older) == newer - older <==> -I64_BOUND <= newer - older < I64_BOUND
  {
    Wrap64OfDifference(newer, older);
  }

  datatype Delta = Delta(
    epoch: U64, prevEpoch: U64, jointImproved: bool, jointWorsened: bool,
    chainsRecovered: bool, chainsDegraded: bool, prunedDelta: int, momentumDelta: int, directionChanged: bool)
  {
    predicate Improvement() {
      jointImproved || chainsRecovered
    }

    predicate Degradation() {
      jointWorsened || chainsDegraded
    }
  }

  function DeltaOf(prev: Report, curr: Report): Delta {
    Delta(curr.epoch, prev.epoch,
          curr.joint.Score() < prev.joint.Score(), curr.joint.Score() > prev.joint.Score(),
          !prev.chainsValid && curr.chainsValid, prev.chainsValid && !curr.chainsValid,
          SignedDifference(curr.totalPruned, prev.totalPruned), Wrap16(curr.momentum - prev.momentum),
          curr.direction != prev.direction)
  }

  /** The deltas of consecutive reports: delta `i` leads from report `i` to report `i + 1`. */
  function DeltasOf(rs: seq<Report>): (ds: seq<Delta>)
    ensures |ds| == if rs == [] then 0 else |rs| - 1
  {
    if rs == [] then [] else seq(|rs| - 1, i requires 0 <= i < |rs| - 1 => DeltaOf(rs[i], rs[i + 1]))
  }

  /** The five flags of a delta, bit by bit. */
  function FlagsByte(d: Delta): Byte {
    Flag(d.jointImproved) + 2 * Flag(d.jointWorsened) + 4 * Flag(d.chainsRecovered)
    + 8 * Flag(d.chainsDegraded) + 16 * Flag(d.directionChanged)
  }

  lemma LowestBit(x: bool, m: nat, y: bool, n: nat)
    requires Flag(x) + 2 * m == Flag(y) + 2 * n
    ensures x == y && m == n
  {
  }

  /** No flag is lost in the byte. */
  lemma FlagsByteIsFaithful(a: Delta, b: Delta)
    requires FlagsByte(a) == FlagsByte(b)
    ensures a.jointImproved == b.jointImproved && a.jointWorsened == b.jointWorsened
    ensures a.chainsRecovered == b.chainsRecovered && a.chainsDegraded == b.chainsDegraded
    ensures a.directionChanged == b.directionChanged
  {
    var a3, b3 := Flag(a.chainsDegraded) + 2 * Flag(a.directionChanged),
                  Flag(b.chainsDegraded) + 2 * Flag(b.directionChanged);
    var a2, b2 := Flag(a.chainsRecovered) + 2 * a3, Flag(b.chainsRecovered) + 2 * b3;
    var a1, b1 := Flag(a.jointWorsened) + 2 * a2, Flag(b.jointWorsened) + 2 * b2;
    LowestBit(a.jointImproved, a1, b.jointImproved, b1);
    LowestBit(a.jointWorsened, a2, b.jointWorsened, b2);
    LowestBit(a.chainsRecovered, a3, b.chainsRecovered, b3);
    LowestBit(a.chainsDegraded, Flag(a.directionChanged), b.chainsDegraded, Flag(b.directionChanged));
  }

  function DeltaBody(d: Delta): ByteString {
    Be8(d.epoch) + Be8(d.prevEpoch) + [FlagsByte(d)]
    + SignedBigEndian(d.prunedDelta, 8) + SignedBigEndian(d.momentumDelta, 2)
  }

  /** The two differences fit their encodings. */
  predicate DeltaFits(d: Delta) {
    -I64_BOUND <= d.prunedDelta < I64_BOUND && -I16_BOUND <= d.momentumDelta < I16_BOUND
  }

  /** The encoding determines every field of such a delta. */
  lemma DeltaBodyInjective(a: Delta, b: Delta)
    requires DeltaFits(a) && DeltaFits(b) && DeltaBody(a) == DeltaBody(b)
    ensures a == b
  {
    var a1, b1 := Be8(a.epoch) + Be8(a.prevEpoch), Be8(b.epoch) + Be8(b.prevEpoch);
    var a2, b2 := a1 + [FlagsByte(a)], b1 + [FlagsByte(b)];
    SplitEqual(a2 + SignedBigEndian(a.prunedDelta, 8), b2 + SignedBigEndian(b.prunedDelta, 8),
               SignedBigEndian(a.momentumDelta, 2), SignedBigEndian(b.momentumDelta, 2));
    SplitEqual(a2, b2, SignedBigEndian(a.prunedDelta, 8), SignedBigEndian(b.prunedDelta, 8));
    SplitEqual(a1, b1, [FlagsByte(a)], [FlagsByte(b)]);
    SplitEqual(Be8(a.epoch), Be8(b.epoch), Be8(a.prevEpoch), Be8(b.prevEpoch));
    Be8Injective(a.epoch, b.epoch);
    Be8Injective(a.prevEpoch, b.prevEpoch);
    Signed8Injective(a.prunedDelta, b.prunedDelta);
    Signed2Injective(a.momentumDelta, b.momentumDelta);
    OneByte(FlagsByte(a), FlagsByte(b));
    FlagsByteIsFaithful(a, b);
  }

  class EpochComparatorLog {
    const sha: Hash
    var deltas: seq<Chained<Delta>>

    constructor (sha: Hash)
      ensures this.sha == sha && deltas == []
    {
      this.sha := sha;
      deltas := [];
    }

    method Compare(prev: Report, curr: Report) returns (d: Chained<Delta>)
      modifies this
      ensures deltas == old(deltas) + [d] && d == Next(sha, DeltaBody, old(deltas), DeltaOf(prev, curr))
    {
      var jointImproved := curr.joint.Score() < prev.joint.Score();
      var jointWorsened := curr.joint.Score() > prev.joint.Score();
      var chainsRecovered := !prev.chainsValid && curr.chainsValid;
      var chainsDegraded := prev.chainsValid && !curr.chainsValid;
      var prunedDelta := SignedDifference(curr.totalPruned, prev.totalPruned);
      var momentumDelta := Wrap16(curr.momentum - prev.momentum);
      var content := Delta(curr.epoch, prev.epoch, jointImproved, jointWorsened, chainsRecovered, chainsDegraded,
                           prunedDelta, momentumDelta, curr.direction != prev.direction);
      d := Next(sha, DeltaBody, deltas, content);
      deltas := deltas + [d];
    }

    method VerifyChain() returns (valid: bool, broken: Option<nat>)
      ensures valid <==> LogHolds(sha, DeltaBody, deltas)
      ensures valid ==> broken == None
      ensures !valid ==> broken.Some? && FirstBroken(sha, Genesis(), LinksOf(DeltaBody, deltas), broken.value)
    {
      valid, broken := VerifyLog(sha, DeltaBody, deltas);
    }
  }
}
