/** What the ledger's terminal hash commits to: through the hashes of the wired logs, the whole
    history of inputs, except what the joint condition hides of the constitutional one. */
module PipelineLedger {
  import opened Bytes
  import opened HashChain
  import opened HealthAggregator
  import opened MomentumTracker
  import opened EpochReport
  import opened EpochLedger
  import opened EpochPipeline

  /** Two inputs that differ at most in the constitutional condition, and not in the joint
      condition that it leads to. */
  predicate SameButCondition(a: Observation, b: Observation) {
    a.(cond := Optimal) == b.(cond := Optimal) && JointOf(a) == JointOf(b)
  }

  predicate SameHistory(os: seq<Observation>, qs: seq<Observation>) {
    |os| == |qs| && forall i :: 0 <= i < |os| ==> SameButCondition(os[i], qs[i])
  }

  // ---------------------------------------------------------------- reports and histories

  lemma ReportsFit(os: seq<Observation>, n: nat)
    requires n < |os|
    ensures Fits(Reports(os)[n])
  {
  }

  /** The reports hold exactly that much of the history. */
  lemma SameReportsExactly(os: seq<Observation>, qs: seq<Observation>)
    ensures Reports(os) == Reports(qs) <==> SameHistory(os, qs)
  {
    if Reports(os) == Reports(qs) {
      assert |os| == |Reports(os)| == |qs|;
      forall i | 0 <= i < |os|
        ensures SameButCondition(os[i], qs[i])
      {
        assert ReportAt(os, i) == Reports(os)[i] == Reports(qs)[i] == ReportAt(qs, i);
      }
    }
    if SameHistory(os, qs) {
      forall i | 0 <= i < |os|
        ensures Observed(os[i].epoch, JointOf(os[i])) == Observed(qs[i].epoch, JointOf(qs[i]))
        ensures os[i].(cond := Optimal) == qs[i].(cond := Optimal) && GradeOf(os[i]) == GradeOf(qs[i])
      {
        assert SameButCondition(os[i], qs[i]);
      }
      assert ObservedBy(os) == ObservedBy(qs);
      forall i | 0 <= i < |os|
        ensures Reports(os)[i] == Reports(qs)[i]
      {
        assert SameButCondition(os[i], qs[i]);
      }
    }
  }

  // ---------------------------------------------------------------- the ledger

  /** The ledger of a history verifies. */
  lemma {:induction false} LedgerVerifies(sha: Hash, rs: seq<Report>)
    ensures ChainHolds(sha, LedgerOf(sha, rs))
  {
    if rs != [] {
      var front := rs[..|rs| - 1];
      LedgerVerifies(sha, front);
      EntriesGrow(sha, LedgerOf(sha, front), rs[|rs| - 1].epoch, HashesAfter(sha, rs));
    }
  }

  /** Two different encoded reports of the two histories, at the same distance from their ends,
      with the same hash. */
  ghost predicate ReportCollision(sha: Hash, a: seq<Report>, b: seq<Report>) {
    CollisionBetween(sha, LinksOf(ReportBody, ChainOf(sha, ReportBody, a)),
                     LinksOf(ReportBody, ChainOf(sha, ReportBody, b)))
  }

  ghost predicate LedgerCollision(sha: Hash, a: seq<Report>, b: seq<Report>) {
    CollisionBetween(sha, EntryLinks(LedgerOf(sha, a)), EntryLinks(LedgerOf(sha, b)))
  }

  /** An entry of one of the two ledgers whose hash is the genesis value. */
  ghost predicate GenesisPreimage(sha: Hash, a: seq<Report>, b: seq<Report>) {
    HashesTo(sha, EntryLinks(LedgerOf(sha, a)) + EntryLinks(LedgerOf(sha, b)), Genesis())
  }

  lemma LastEntryHasReportHash(sha: Hash, rs: seq<Report>)
    requires rs != []
    ensures LedgerOf(sha, rs)[|rs| - 1].reportHash == LastHash(ChainOf(sha, ReportBody, rs))
  {
  }

  lemma SameReportHash(sha: Hash, os: seq<Observation>, qs: seq<Observation>)
    requires |os| == |qs|
    requires LastHash(ChainOf(sha, ReportBody, Reports(os))) == LastHash(ChainOf(sha, ReportBody, Reports(qs)))
    ensures Reports(os) == Reports(qs) || ReportCollision(sha, Reports(os), Reports(qs))
  {
    var a, b := Reports(os), Reports(qs);
    ChainOfBinds(sha, ReportBody, a, b);
    if !ReportCollision(sha, a, b) {
      forall i | 0 <= i < |a|
        ensures a[i] == b[i]
      {
        ReportsFit(os, i);
        ReportsFit(qs, i);
        ReportBodyInjective(a[i], b[i]);
      }
    }
  }

  /** One 32-byte value commits to the whole history of the pipeline: equal terminal hashes of
      two wired ledgers mean histories of the same length with the same inputs, up to
      constitutional conditions with the same effect; or an explicit collision between ledger
      entries or between reports; or an explicit preimage of the genesis value. */
  lemma TerminalHashBindsHistory(sha: Hash, os: seq<Observation>, qs: seq<Observation>)
    ensures TerminalHash(LedgerOf(sha, Reports(os))) == TerminalHash(LedgerOf(sha, Reports(qs))) ==>
            || SameHistory(os, qs)
            || LedgerCollision(sha, Reports(os), Reports(qs))
            || ReportCollision(sha, Reports(os), Reports(qs))
            || GenesisPreimage(sha, Reports(os), Reports(qs))
  {
    var a, b := Reports(os), Reports(qs);
    LedgerVerifies(sha, a);
    LedgerVerifies(sha, b);
    if TerminalHash(LedgerOf(sha, a)) == TerminalHash(LedgerOf(sha, b)) {
      TerminalHashBindsLedger(sha, LedgerOf(sha, a), LedgerOf(sha, b));
    }
    if LedgerOf(sha, a) == LedgerOf(sha, b) {
      assert |a| == |LedgerOf(sha, a)| == |b|;
      if a != [] {
        LastEntryHasReportHash(sha, a);
        LastEntryHasReportHash(sha, b);
        SameReportHash(sha, os, qs);
      }
      SameReportsExactly(os, qs);
    }
  }

  /** And nothing more: histories that differ only so have the same ledger. */
  lemma SameHistorySameLedger(sha: Hash, os: seq<Observation>, qs: seq<Observation>)
    requires SameHistory(os, qs)
    ensures LedgerOf(sha, Reports(os)) == LedgerOf(sha, Reports(qs))
  {
    SameReportsExactly(os, qs);
  }

  /** Such histories exist: a good constitution and one of caution leave the same ledger, while
      their health logs differ. */
  lemma ConditionIsNotBound(sha: Hash)
    ensures var good := [Observation(1, true, 0, Good, 0, 0, 0)];
      var caution := [Observation(1, true, 0, Caution, 0, 0, 0)];
      && good != caution && SameHistory(good, caution)
      && LedgerOf(sha, Reports(good)) == LedgerOf(sha, Reports(caution))
      && Vectors(good) != Vectors(caution)
  {
    var good := [Observation(1, true, 0, Good, 0, 0, 0)];
    var caution := [Observation(1, true, 0, Caution, 0, 0, 0)];
    assert good[0] != caution[0];
    assert SameButCondition(good[0], caution[0]);
    SameHistorySameLedger(sha, good, caution);
    assert Vectors(good)[0] != Vectors(caution)[0];
  }
}
