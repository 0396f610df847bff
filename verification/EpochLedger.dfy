/** The per-epoch ledger: one entry per epoch binds the terminal hashes of the compaction
    subsystem into a single hash chain. */
module EpochLedger {
  import opened Wrappers
  import opened Bytes
  import opened HashChain

  datatype LedgerEntry = LedgerEntry(
    epoch: U64,
    reportHash: Digest, alertHash: Digest, slaHash: Digest, capacityHash: Digest,
    deltaHash: Digest, trendHash: Digest, dashboardHash: Digest,
    entryHash: Digest, prevHash: Digest)

  function EntryBody(e: LedgerEntry): ByteString {
    Be8(e.epoch) + e.reportHash + e.alertHash + e.slaHash + e.capacityHash
    + e.deltaHash + e.trendHash + e.dashboardHash
  }

  function EntryLink(e: LedgerEntry): Link {
    Link(e.prevHash, EntryBody(e), e.entryHash)
  }

  function EntryLinks(es: seq<LedgerEntry>): (ls: seq<Link>)
    ensures |ls| == |es|
  {
    seq(|es|, i requires 0 <= i < |es| => EntryLink(es[i]))
  }

  /** A fixed-width encoding: the link determines every field of the entry. */
  lemma EntryLinkInjective(a: LedgerEntry, b: LedgerEntry)
    requires EntryLink(a) == EntryLink(b)
    ensures a == b
  {
    var a1, b1 := Be8(a.epoch) + a.reportHash, Be8(b.epoch) + b.reportHash;
    var a2, b2 := a1 + a.alertHash, b1 + b.alertHash;
    var a3, b3 := a2 + a.slaHash, b2 + b.slaHash;
    var a4, b4 := a3 + a.capacityHash, b3 + b.capacityHash;
    var a5, b5 := a4 + a.deltaHash, b4 + b.deltaHash;
    var a6, b6 := a5 + a.trendHash, b5 + b.trendHash;
    SplitEqual(a6, b6, a.dashboardHash, b.dashboardHash);
    SplitEqual(a5, b5, a.trendHash, b.trendHash);
    SplitEqual(a4, b4, a.deltaHash, b.deltaHash);
    SplitEqual(a3, b3, a.capacityHash, b.capacityHash);
    SplitEqual(a2, b2, a.slaHash, b.slaHash);
    SplitEqual(a1, b1, a.alertHash, b.alertHash);
    SplitEqual(Be8(a.epoch), Be8(b.epoch), a.reportHash, b.reportHash);
    Be8Injective(a.epoch, b.epoch);
  }

  lemma EntryLinksInjective(a: seq<LedgerEntry>, b: seq<LedgerEntry>)
    requires EntryLinks(a) == EntryLinks(b)
    ensures a == b
  {
    assert |a| == |b|;
    forall i | 0 <= i < |a|
      ensures a[i] == b[i]
    {
      assert EntryLinks(a)[i] == EntryLinks(b)[i];
      EntryLinkInjective(a[i], b[i]);
    }
  }

  /** What `verify_chain` accepts. */
  predicate ChainHolds(sha: Hash, entries: seq<LedgerEntry>) {
    Linked(sha, Genesis(), EntryLinks(entries))
  }

  function TerminalHash(entries: seq<LedgerEntry>): Digest {
    Tip(Genesis(), EntryLinks(entries))
  }

  /** Tamper evidence: two accepted ledgers with the same terminal hash are equal entry by
      entry, or they exhibit a collision, or a preimage of the genesis value. */
  lemma TerminalHashBindsLedger(sha: Hash, a: seq<LedgerEntry>, b: seq<LedgerEntry>)
    requires ChainHolds(sha, a) && ChainHolds(sha, b) && TerminalHash(a) == TerminalHash(b)
    ensures a == b || CollisionBetween(sha, EntryLinks(a), EntryLinks(b))
            || HashesTo(sha, EntryLinks(a) + EntryLinks(b), Genesis())
  {
    SameTip(sha, Genesis(), EntryLinks(a), EntryLinks(b));
    if EntryLinks(a) == EntryLinks(b) {
      EntryLinksInjective(a, b);
    }
  }

  /** The hashes of one epoch, one per log. */
  datatype EpochHashes = EpochHashes(
    report: Digest, alert: Digest, sla: Digest, capacity: Digest, delta: Digest, trend: Digest, dashboard: Digest)

  /** The entry that a ledger appends. */
  function NextEntry(sha: Hash, entries: seq<LedgerEntry>, epoch: U64, h: EpochHashes): LedgerEntry {
    var entry := LedgerEntry(epoch, h.report, h.alert, h.sla, h.capacity, h.delta, h.trend, h.dashboard,
                             Genesis(), TerminalHash(entries));
    entry.(entryHash := sha(Preimage(EntryLink(entry))))
  }

  lemma NextEntryContinues(sha: Hash, entries: seq<LedgerEntry>, epoch: U64, h: EpochHashes)
    ensures Continues(sha, EntryLinks(entries), EntryLink(NextEntry(sha, entries, epoch, h)))
  {
    var entry := NextEntry(sha, entries, epoch, h);
    assert EntryBody(entry) == EntryBody(entry.(entryHash := Genesis()));
  }

  lemma EntriesGrow(sha: Hash, entries: seq<LedgerEntry>, epoch: U64, h: EpochHashes)
    ensures var entry := NextEntry(sha, entries, epoch, h);
      && Continues(sha, EntryLinks(entries), EntryLink(entry))
      && TerminalHash(entries + [entry]) == entry.entryHash
      && (ChainHolds(sha, entries + [entry]) <==> ChainHolds(sha, entries))
  {
    NextEntryContinues(sha, entries, epoch, h);
    var entry := NextEntry(sha, entries, epoch, h);
    LinkedGrows(sha, Genesis(), EntryLinks(entries), EntryLink(entry));
    assert EntryLinks(entries + [entry]) == EntryLinks(entries) + [EntryLink(entry)];
  }

  class CompactionEpochLedger {
    const sha: Hash
    var entries: seq<LedgerEntry>

    constructor (sha: Hash)
      ensures this.sha == sha && entries == []
    {
      this.sha := sha;
      entries := [];
    }

    /** Appends one entry; the ledger verifies afterwards exactly when it did before. */
    method Append(epoch: U64, reportHash: Digest, alertHash: Digest, slaHash: Digest, capacityHash: Digest,
                  deltaHash: Digest, trendHash: Digest, dashboardHash: Digest) returns (entry: LedgerEntry)
      modifies this`entries
      ensures entries == old(entries) + [entry]
      ensures entry == NextEntry(sha, old(entries), epoch,
        EpochHashes(reportHash, alertHash, slaHash, capacityHash, deltaHash, trendHash, dashboardHash))
      ensures Continues(sha, EntryLinks(old(entries)), EntryLink(entry)) && TerminalHash(entries) == entry.entryHash
      ensures ChainHolds(sha, entries) <==> ChainHolds(sha, old(entries))
    {
      var prev := if entries == [] then Genesis() else entries[|entries| - 1].entryHash;
      entry := LedgerEntry(epoch, reportHash, alertHash, slaHash, capacityHash, deltaHash, trendHash,
                           dashboardHash, Genesis(), prev);
      entry := entry.(entryHash := sha(Preimage(EntryLink(entry))));
      EntriesGrow(sha, entries, epoch,
                  EpochHashes(reportHash, alertHash, slaHash, capacityHash, deltaHash, trendHash, dashboardHash));
      entries := entries + [entry];
    }

    /** Accepts exactly the intact ledgers; otherwise names the first broken entry. The
        entries may have been altered from outside, so nothing is assumed of them. */
    method VerifyChain() returns (valid: bool, broken: Option<nat>)
      ensures valid <==> ChainHolds(sha, entries)
      ensures valid ==> broken == None
      ensures !valid ==> broken.Some? && FirstBroken(sha, Genesis(), EntryLinks(entries), broken.value)
    {
      valid, broken := VerifyLinks(sha, Genesis(), EntryLinks(entries));
    }
  }
}
