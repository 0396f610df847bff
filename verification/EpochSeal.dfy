/** The chain of epoch seals, each binding the running pruning totals of the three compactors
    and their sum. */
module EpochSeal {
  import opened Wrappers
  import opened Bytes
  import opened HashChain

  datatype CompactionEpochSeal = CompactionEpochSeal(
    epoch: U64, unifiedHash: Digest, spsfPruned: U64, healthPruned: U64, resonancePruned: U64,
    totalPruned: U64, sealHash: Digest, prevHash: Digest)

  function SaturatedTotal(spsf: U64, health: U64, resonance: U64): U64 {
    SaturatingAdd(SaturatingAdd(spsf, health), resonance)
  }

  /** Saturation only ever lowers the sum, and leaves it alone when it fits. */
  lemma SaturatedTotalExactly(spsf: U64, health: U64, resonance: U64)
    ensures SaturatedTotal(spsf, health, resonance)
         == if spsf + health + resonance < U64_BOUND then spsf + health + resonance else U64_BOUND - 1
  {
  }

  function SealBody(s: CompactionEpochSeal): ByteString {
    Be8(s.epoch) + s.unifiedHash + Be8(s.spsfPruned) + Be8(s.healthPruned) + Be8(s.resonancePruned)
    + Be8(s.totalPruned)
  }

  function SealLink(s: CompactionEpochSeal): Link {
    Link(s.prevHash, SealBody(s), s.sealHash)
  }

  function SealLinks(ss: seq<CompactionEpochSeal>): (ls: seq<Link>)
    ensures |ls| == |ss|
  {
    seq(|ss|, i requires 0 <= i < |ss| => SealLink(ss[i]))
  }

  /** Seal `i` continues the chain, totals its parts and carries its own hash. */
  predicate SealHolds(sha: Hash, ss: seq<CompactionEpochSeal>, i: nat)
    requires i < |ss|
  {
    && LinkHolds(sha, Genesis(), SealLinks(ss), i)
    && ss[i].totalPruned == SaturatedTotal(ss[i].spsfPruned, ss[i].healthPruned, ss[i].resonancePruned)
  }

  predicate ChainHolds(sha: Hash, ss: seq<CompactionEpochSeal>) {
    forall i :: 0 <= i < |ss| ==> SealHolds(sha, ss, i)
  }

  lemma SealHoldsInPrefix(sha: Hash, ss: seq<CompactionEpochSeal>, n: nat, i: nat)
    requires i < n <= |ss|
    ensures SealHolds(sha, ss[..n], i) <==> SealHolds(sha, ss, i)
  {
    assert SealLinks(ss[..n])[..i] == SealLinks(ss)[..i];
  }

  /** A good seal keeps the chain exactly as intact as it was. */
  lemma SealsGrow(sha: Hash, ss: seq<CompactionEpochSeal>, s: CompactionEpochSeal)
    requires Continues(sha, SealLinks(ss), SealLink(s))
    requires s.totalPruned == SaturatedTotal(s.spsfPruned, s.healthPruned, s.resonancePruned)
    ensures SealHolds(sha, ss + [s], |ss|)
    ensures ChainHolds(sha, ss + [s]) <==> ChainHolds(sha, ss)
  {
    var all, n := ss + [s], |ss|;
    assert all[..n] == ss;
    assert SealLinks(all)[..n] == SealLinks(ss);
    forall i | 0 <= i < n
      ensures SealHolds(sha, all, i) <==> SealHolds(sha, ss, i)
    {
      SealHoldsInPrefix(sha, all, n, i);
    }
  }

  /** What the verification loop tests at seal `i`. */
  lemma SealHoldsExactly(sha: Hash, ss: seq<CompactionEpochSeal>, i: nat)
    requires i < |ss|
    ensures var prev, s := Tip(Genesis(), SealLinks(ss)[..i]), ss[i];
      && Tip(Genesis(), SealLinks(ss)[..i + 1]) == s.sealHash
      && (SealHolds(sha, ss, i) <==>
            && s.prevHash == prev && s.totalPruned == SaturatedTotal(s.spsfPruned, s.healthPruned, s.resonancePruned)
            && s.sealHash == sha(Preimage(SealLink(s))))
  {
  }

  class CompactionSealChain {
    const sha: Hash
    var seals: seq<CompactionEpochSeal>

    constructor (sha: Hash)
      ensures this.sha == sha && seals == []
    {
      this.sha := sha;
      seals := [];
    }

    method Append(epoch: U64, unifiedHash: Digest, spsf: U64, health: U64, resonance: U64)
      returns (s: CompactionEpochSeal)
      modifies this`seals
      ensures seals == old(seals) + [s]
      ensures s.epoch == epoch && s.unifiedHash == unifiedHash
      ensures s.spsfPruned == spsf && s.healthPruned == health && s.resonancePruned == resonance
      ensures SealHolds(sha, seals, |seals| - 1)
      ensures ChainHolds(sha, seals) <==> ChainHolds(sha, old(seals))
    {
      var prev := if seals == [] then Genesis() else seals[|seals| - 1].sealHash;
      s := CompactionEpochSeal(epoch, unifiedHash, spsf, health, resonance,
                               SaturatedTotal(spsf, health, resonance), Genesis(), prev);
      s := s.(sealHash := sha(Preimage(SealLink(s))));
      SealsGrow(sha, seals, s);
      seals := seals + [s];
    }

    /** Accepts exactly the intact chains and otherwise names the first bad seal. */
    method VerifyChain() returns (valid: bool, broken: Option<nat>)
      ensures valid <==> ChainHolds(sha, seals)
      ensures valid ==> broken == None
      ensures !valid ==> broken.Some? && broken.value < |seals| && !SealHolds(sha, seals, broken.value)
      ensures !valid ==> forall i :: 0 <= i < broken.value ==> SealHolds(sha, seals, i)
    {
      var prev := Genesis();
      for i := 0 to |seals|
        invariant prev == Tip(Genesis(), SealLinks(seals)[..i])
        invariant forall j :: 0 <= j < i ==> SealHolds(sha, seals, j)
      {
        var s := seals[i];
        SealHoldsExactly(sha, seals, i);
        if s.prevHash != prev
          || s.totalPruned != SaturatedTotal(s.spsfPruned, s.healthPruned, s.resonancePruned)
          || s.sealHash != sha(Preimage(SealLink(s)))
        {
          return false, Some(i);
        }
        prev := s.sealHash;
      }
      return true, None;
    }
  }
}
