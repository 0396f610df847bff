/** Certification of a window of ledger entries, and the chain of the resulting seals. */
module AuditSeal {
  import opened Wrappers
  import opened Bytes
  import opened HashChain
  import opened EpochLedger

  datatype CompactionAuditSeal = CompactionAuditSeal(
    epochStart: U64, epochEnd: U64, epochCount: U64, chainsValid: bool,
    terminalHash: Digest, sealHash: Digest, prevHash: Digest)

  datatype CertifyResult = Sealed(seal: CompactionAuditSeal) | EmptyWindow

  // ---------------------------------------------------------------- windows

  /** A window certifies as valid when it is a chain started from its own first link. */
  predicate WindowHolds(sha: Hash, w: seq<LedgerEntry>)
    requires w != []
  {
    Linked(sha, w[0].prevHash, EntryLinks(w))
  }

  /** Segmented verification. */
  lemma WindowConcat(sha: Hash, a: seq<LedgerEntry>, b: seq<LedgerEntry>)
    requires a != [] && b != []
    ensures WindowHolds(sha, a + b) <==>
      WindowHolds(sha, a) && WindowHolds(sha, b) && b[0].prevHash == a[|a| - 1].entryHash
  {
    var x, y := EntryLinks(a), EntryLinks(b);
    assert EntryLinks(a + b) == x + y;
    assert Tip(a[0].prevHash, x) == a[|a| - 1].entryHash && y[0].prev == b[0].prevHash;
    LinkedConcat(sha, a[0].prevHash, x, y);
    LinkedFromFirst(sha, a[|a| - 1].entryHash, y);
  }

  /** The ledger's own verification is window validity plus a genesis first link. */
  lemma ChainIsGenesisWindow(sha: Hash, entries: seq<LedgerEntry>)
    requires entries != []
    ensures ChainHolds(sha, entries) <==> WindowHolds(sha, entries) && entries[0].prevHash == Genesis()
  {
    LinkedFromFirst(sha, Genesis(), EntryLinks(entries));
  }

  /** Every non-empty contiguous window of an intact ledger certifies as valid. */
  lemma EveryWindowHolds(sha: Hash, entries: seq<LedgerEntry>, lo: nat, hi: nat)
    requires ChainHolds(sha, entries) && lo < hi <= |entries|
    ensures WindowHolds(sha, entries[lo..hi])
  {
    var upTo := entries[..hi];
    assert EntryLinks(upTo) == EntryLinks(entries)[..hi];
    LinkedPrefix(sha, Genesis(), EntryLinks(entries), hi);
    ChainIsGenesisWindow(sha, upTo);
    if lo > 0 {
      assert upTo == entries[..lo] + entries[lo..hi];
      WindowConcat(sha, entries[..lo], entries[lo..hi]);
    } else {
      assert entries[lo..hi] == upTo;
    }
  }

  // ---------------------------------------------------------------- seals

  function SealBody(s: CompactionAuditSeal): ByteString {
    Be8(s.epochStart) + Be8(s.epochEnd) + Be8(s.epochCount) + [Flag(s.chainsValid)] + s.terminalHash
  }

  function SealLink(s: CompactionAuditSeal): Link {
    Link(s.prevHash, SealBody(s), s.sealHash)
  }

  function SealLinks(ss: seq<CompactionAuditSeal>): (ls: seq<Link>)
    ensures |ls| == |ss|
  {
    seq(|ss|, i requires 0 <= i < |ss| => SealLink(ss[i]))
  }

  lemma SealLinkInjective(a: CompactionAuditSeal, b: CompactionAuditSeal)
    requires SealLink(a) == SealLink(b)
    ensures a == b
  {
    var a1, b1 := Be8(a.epochStart) + Be8(a.epochEnd), Be8(b.epochStart) + Be8(b.epochEnd);
    var a2, b2 := a1 + Be8(a.epochCount), b1 + Be8(b.epochCount);
    SplitEqual(a2 + [Flag(a.chainsValid)], b2 + [Flag(b.chainsValid)], a.terminalHash, b.terminalHash);
    SplitEqual(a2, b2, [Flag(a.chainsValid)], [Flag(b.chainsValid)]);
    SplitEqual(a1, b1, Be8(a.epochCount), Be8(b.epochCount));
    SplitEqual(Be8(a.epochStart), Be8(b.epochStart), Be8(a.epochEnd), Be8(b.epochEnd));
    Be8Injective(a.epochStart, b.epochStart);
    Be8Injective(a.epochEnd, b.epochEnd);
    Be8Injective(a.epochCount, b.epochCount);
  }

  /** `s` is the seal of window `w`. */
  predicate Seals(sha: Hash, w: seq<LedgerEntry>, s: CompactionAuditSeal)
  {
    && w != []
    && |w| < U64_BOUND
    && s.epochStart == w[0].epoch
    && s.epochEnd == w[|w| - 1].epoch
    && s.epochCount == |w|
    && (s.chainsValid <==> WindowHolds(sha, w))
    && s.terminalHash == w[|w| - 1].entryHash
    && s.sealHash == sha(Preimage(SealLink(s)))
  }

  /** A seal hash pins the whole certified window: if two windows that certified as valid were
      given the same seal hash, the seals and the windows are identical, down to the link each
      window continues from, or an explicit collision has been found. */
  lemma SealHashBindsWindow(sha: Hash, v: seq<LedgerEntry>, s: CompactionAuditSeal,
                            w: seq<LedgerEntry>, t: CompactionAuditSeal)
    requires Seals(sha, v, s) && Seals(sha, w, t) && s.chainsValid && t.chainsValid
    requires s.sealHash == t.sealHash
    ensures (v == w && s == t)
            || Collision(sha, Preimage(SealLink(s)), Preimage(SealLink(t)))
            || CollisionBetween(sha, EntryLinks(v), EntryLinks(w))
  {
    if Preimage(SealLink(s)) == Preimage(SealLink(t)) {
      SplitEqual(s.prevHash, t.prevHash, SealBody(s), SealBody(t));
      SealLinkInjective(s, t);
      SameTipSameChain(sha, v[0].prevHash, EntryLinks(v), w[0].prevHash, EntryLinks(w));
      if EntryLinks(v) == EntryLinks(w) {
        EntryLinksInjective(v, w);
      }
    }
  }

  /** A seal that continues a log keeps it exactly as intact as it was. */
  lemma SealsGrow(sha: Hash, seals: seq<CompactionAuditSeal>, s: CompactionAuditSeal)
    requires Continues(sha, SealLinks(seals), SealLink(s))
    ensures Linked(sha, Genesis(), SealLinks(seals + [s])) <==> Linked(sha, Genesis(), SealLinks(seals))
  {
    LinkedGrows(sha, Genesis(), SealLinks(seals), SealLink(s));
    assert SealLinks(seals + [s]) == SealLinks(seals) + [SealLink(s)];
  }

  class CompactionAuditSealLog {
    const sha: Hash
    var seals: seq<CompactionAuditSeal>

    constructor (sha: Hash)
      ensures this.sha == sha && seals == []
    {
      this.sha := sha;
      seals := [];
    }

    /** Seals a window with the verdict on its internal chain; an empty window is refused and
        leaves the log alone. */
    method Certify(window: seq<LedgerEntry>) returns (r: CertifyResult)
      requires |window| < U64_BOUND
      modifies this`seals
      ensures window == [] ==> r == EmptyWindow && seals == old(seals)
      ensures window != [] ==> r.Sealed? && seals == old(seals) + [r.seal] && Seals(sha, window, r.seal)
      ensures r.Sealed? ==> Continues(sha, SealLinks(old(seals)), SealLink(r.seal))
      ensures Linked(sha, Genesis(), SealLinks(seals)) <==> Linked(sha, Genesis(), SealLinks(old(seals)))
    {
      if window == [] {
        return EmptyWindow;
      }
      var valid := CheckWindow(sha, window);
      var link := if seals == [] then Genesis() else seals[|seals| - 1].sealHash;
      var seal := CompactionAuditSeal(window[0].epoch, window[|window| - 1].epoch, |window|, valid,
                                      window[|window| - 1].entryHash, Genesis(), link);
      seal := seal.(sealHash := sha(Preimage(SealLink(seal))));
      SealsGrow(sha, seals, seal);
      seals := seals + [seal];
      r := Sealed(seal);
    }

    /** The loop over the window: its entries form a chain that starts from its first link. */
    static method CheckWindow(sha: Hash, window: seq<LedgerEntry>) returns (valid: bool)
      requires window != []
      ensures valid <==> WindowHolds(sha, window)
    {
      valid := true;
      var prev := window[0].prevHash;
      ghost var links := EntryLinks(window);
      for i := 0 to |window|
        invariant valid && prev == Tip(window[0].prevHash, links[..i])
        invariant Linked(sha, window[0].prevHash, links[..i])
      {
        var e := window[i];
        if e.prevHash != prev || e.entryHash != sha(prev + EntryBody(e)) {
          assert !LinkHolds(sha, window[0].prevHash, links, i);
          valid := false;
          break;
        }
        LinkedGrows(sha, window[0].prevHash, links[..i], links[i]);
        assert links[..i + 1] == links[..i] + [links[i]];
        prev := e.entryHash;
      }
      assert valid ==> links[..|window|] == links;
    }

    method VerifyChain() returns (valid: bool, broken: Option<nat>)
      ensures valid <==> Linked(sha, Genesis(), SealLinks(seals))
      ensures valid ==> broken == None
      ensures !valid ==> broken.Some? && FirstBroken(sha, Genesis(), SealLinks(seals), broken.value)
    {
      valid, broken := VerifyLinks(sha, Genesis(), SealLinks(seals));
    }
  }
}
