# Verified model of the `aegis-cl-psi` decision and compaction core

This project models the parts of the Rust crate `aegis-cl-psi` in which something hard sits on
top of the usual "append a record and chain a hash" skeleton, and proves properties that hold
over every input, every run or every pair of accepted histories.

* **Causal arbiter** (`CausalGraph.dfy`, `CausalEvaluation.dfy`, `CausalArbiter.dfy`): the
  memoised depth-first evaluation of a dependency graph, against the same evaluation without
  memory and against a specification by reachability, on acyclic and cyclic graphs alike.
* **Epoch health pipeline** (`HealthAggregator.dfy`, `MomentumTracker.dfy`, `EpochReport.dfy`,
  `AlertClassifier.dfy`, `SlaTracker.dfy`, `EpochComparator.dfy`, `TrendAnalyzer.dfy`,
  `Dashboard.dfy`, `CapacityPlanner.dfy`, wired in `EpochPipeline.dfy`): sliding windows, streak
  counters and projections; the bounds that only the wired system has (`PipelineBounds.dfy`);
  what the ledger's terminal hash says about the whole history (`PipelineLedger.dfy`), and what
  the last hash of each single log says about that log (`PipelineLogs.dfy`).
* **Tamper-evident chains and compaction** (`Bytes.dfy`, `HashChain.dfy`, `EpochLedger.dfy`,
  `AuditSeal.dfy`, `GossipHealth.dfy`, `GossipHealthCompactor.dfy`): verification, segmented
  verification, and what a terminal hash, a seal or a compaction certificate commits to.
* **Broadcast** (`Broadcaster.dfy`, `BroadcastValidator.dfy`, `PeerRegistry.dfy`,
  `GossipDispatcher.dfy`): the frame codec, the validator's watermark, and dispatch to a peer
  list that is rebuilt from an event log.
* **Resources and scheduling** (`BandwidthTracker.dfy`, `DevsScheduler.dfy`, `EpochSeal.dfy`,
  `TelemetryEncoder.dfy`, `CechDescent.dfy`): byte budgets, the mode scheduler, percentage
  splits and coherence defects.

Objects whose methods update fields are classes; each method states its new state through a
function of the old one, and the lemmas about runs are proved about those functions. SHA-256 is
a parameter of every definition that hashes (`Bytes.Hash`). Nothing assumes that it is
injective: tamper evidence always reads "identical, or here are two different strings from the
data at hand with the same hash", and for chains of different lengths "or here is a preimage of
the genesis value". Confidences and model outputs are reals. Integer widths, wrap-around,
saturation and truncation are written out where they matter.

## What the code does differently from its descriptions

Each entry names the exact condition under which the description holds, and a witness.

* The scheduler's header lists no edge from Degraded to LocalInference; the code has one
  (`DocumentedEdgesExactly`; `RecoveryHappens`). It also lists a rollback from any mode on a
  critical signal; the code takes that one in cloud verification only (`RollbackAsDescribed`;
  `CallCanGoUnheeded`).
* The anchor epoch is described as the highest pruned epoch; the code stores the last one
  (`AnchorEpochIsHighestExactly`; `AnchorCanUnderstateEpoch`).
* A dispatch is described as going to every registered peer; the peer count is first cut to 32
  bits, so a registry whose size is a positive multiple of 2^32 gets an empty list
  (`EveryDispatchListsThePeers`; `FullRegistryGetsNothing`).
* The frame decoder takes any non-zero byte for "chains valid", so an accepted frame has
  siblings (`DecodeDeterminesFrame`; `FlagByteIsNotUnique`).
* Sealing an epoch of the bandwidth registry can fail after having sealed some peers
  (`FailedSealChangesNothingExactly`; `SealCanFailPartway`). It is described as sealing all open
  epochs; it leaves out peers at another one, whose bytes are dropped when they move on
  (`SealsEveryoneExactly`; `UnsealedUsageIsDropped`).
* A request is described as opening a new epoch when its epoch changes; one for an earlier epoch
  is charged to the current one (`OpenedAsDescribed`, which includes a witness).
* The recorded utilisation is described as a percentage of the budget; its product wraps in 64
  bits (`UtilizationExactly`; `FullBudgetCanReadZero`). The telemetry shares have the same
  product (`ShareExactly`, which includes a witness). The compliance rate has it in 32 bits, and
  its two counts are cut to 32 bits as well (`RateExactly`; `FullComplianceCanReadZero`,
  `LongLogCanReadHalf`).
* A request is described as allowed when it fits the budget; a saturating addition and the order
  of the checks make two exceptions (`AllowedExactly`; `AllowedBeyondBudget`).
* The evaluation of a dependency graph can fail to return when a cycle is reachable
  (`ReturnsExactly`; `SelfDependencyNeverReturns`, `FaultBeforeCycleReturns`).
* The health grade "elevated" differs from its header in two cases: more than the threshold
  pruned with sound chains, and the threshold itself with broken ones (`ElevatedAsDescribed`,
  which includes a witness for each).
* The nominal joint condition (`NominalAsDescribed`, with a witness), the green alert
  (`AlertClassifier.GreenExactly`; `GreenOnDecline`), the stable frame (`StableAsDescribed`;
  `AmberSteadyIsConcerning`) and the planner's order of checks (`EpochsLeftAsDescribed`, with a
  witness) each differ from their headers in one case.
* The one-sided trends are described as three moves in the last four comparisons. On full windows
  the code differs when a comparison points the other way (`TrendAsDescribed`;
  `ThreeImprovementsNotImproving`); on shorter ones also because fewer moves are enough
  (`ShortWindowAsDescribed`; `OneMoveIsATrend`).
* The ledger is described as binding all terminal hashes of the subsystem; the hash of the
  health vector is not among them, so the constitutional condition is bound only through the
  joint condition (`TerminalHashBindsHistory`, `SameHistorySameLedger`; `ConditionIsNotBound`).

The model follows the code in all of these. One described gap is worth knowing as well: the hash
of a bandwidth record leaves out the budget and the percentage, so altering them in a log goes
unnoticed (`RecordBodyExactly`, `AlteredPercentageIsUnnoticed`); in reachable registries of one
budget the hashed fields determine them (`LastHashBindsPeerLog`).

## Model

| member | source | states |
|---|---|---|
| CausalArbiter.CausalConfidenceArbiter.constructor | aegis-cl-psi/src/causal_arbiter.rs:38-43 | the threshold is clamped to the unit interval and no node is registered |
| CausalArbiter.CausalConfidenceArbiter.RegisterNode | aegis-cl-psi/src/causal_arbiter.rs:45-47 | registration inserts or replaces exactly one node |
| CausalArbiter.CausalConfidenceArbiter.EvaluateChain | aegis-cl-psi/src/causal_arbiter.rs:49-54 | wherever the evaluation returns: success iff every reachable node is healthy, with the weakest reachable state; otherwise a true violation; no node expanded twice, and a success expands exactly the reachable nodes |
| CausalArbiter.CausalConfidenceArbiter.Traverse | aegis-cl-psi/src/causal_arbiter.rs:56-99 | hands back what the memoised evaluation does, memory and expanded nodes included; the outcome is that of the evaluation without memory, first violation included; visited keeps finished nodes only and stays closed under dependencies; nothing known is expanded again |
| CausalArbiter.CausalConfidenceArbiter.VisitDependencies | aegis-cl-psi/src/causal_arbiter.rs:72-86 | the dependency loop stops at the first violation below the node or accumulates memory, confidence and weakest state; either way it decides the outcome of the node without memory |
| CausalArbiter.MemoisedReturns | aegis-cl-psi/src/causal_arbiter.rs:56-99 | a return of the memoised recursion from any sound memory implies a return without memory, with the same outcome, and leaves a sound memory |
| CausalArbiter.MemoryChangesNothing | aegis-cl-psi/src/causal_arbiter.rs:51-99 | the memory changes neither whether an evaluation returns nor what it returns |
| CausalArbiter.NothingExpandedTwice | aegis-cl-psi/src/causal_arbiter.rs:61-63 | no call expands a node twice or one already visited; what a success adds to visited is what it has expanded |
| CausalEvaluation.OutcomeByReachability | aegis-cl-psi/src/causal_arbiter.rs:49-99 | success iff all reachable nodes are registered, verifiable and confident enough with multiplicity; weakest state attained; violations witnessed |
| CausalEvaluation.ViolationIsWitnessed | aegis-cl-psi/src/causal_arbiter.rs:102-115 | a reported violation names a reachable node that is missing, beyond the horizon, or whose compound confidence is the reported score below the threshold |
| CausalEvaluation.SuccessMeansHealthy | aegis-cl-psi/src/causal_arbiter.rs:88-98 | success at a node vouches for everything reached from it |
| CausalArbiter.SucceedsExactly | aegis-cl-psi/src/causal_arbiter.rs:51-99 | on every graph: the memoised evaluation returns success iff no cycle is reachable and every reachable node is healthy |
| CausalArbiter.ReturnsExactly | aegis-cl-psi/src/causal_arbiter.rs:56-99 | on every graph: the memoised evaluation returns iff no cycle is reachable along dependencies whose earlier siblings are all acyclic and healthy |
| CausalEvaluation.AcyclicTerminates | aegis-cl-psi/src/causal_arbiter.rs:56-99 | without a reachable cycle the recursion returns within the number of reachable nodes |
| CausalArbiter.HealthyCycleNeverReturns | aegis-cl-psi/src/causal_arbiter.rs:61-98 | marking nodes only when finished makes the memoised recursion on a healthy cycle go on for ever |
| CausalArbiter.SelfDependencyNeverReturns | aegis-cl-psi/src/causal_arbiter.rs:61-98 | the smallest such graph: one verified node of confidence 1 that depends on itself |
| CausalArbiter.FaultBeforeCycleReturns | aegis-cl-psi/src/causal_arbiter.rs:61-98 | a graph with a reachable cycle on which a fault met first is reported |
| CausalEvaluation.RegistrationIsLocal | aegis-cl-psi/src/causal_arbiter.rs:45-47 | registering or replacing a node changes no evaluation of a node that does not reach it |
| HealthAggregator.JointConditionBounds | aegis-cl-psi/src/compaction_health_aggregator.rs:57-97 | broken chains are never better than degraded; exactly when the joint condition is critical or acceptable |
| HealthAggregator.ElevatedAsDescribed | aegis-cl-psi/src/compaction_health_aggregator.rs:7-11 | the grade "elevated" is as described except above the threshold with sound chains and at the threshold with broken ones, the worst grade except for the latter; a witness for each |
| HealthAggregator.NominalAsDescribed | aegis-cl-psi/src/compaction_health_aggregator.rs:25-29 | the nominal joint condition is as described except for sound chains under caution; a witness |
| HealthAggregator.CompactionHealthLog.Record | aegis-cl-psi/src/compaction_health_aggregator.rs:147-173 | one vector per epoch with the classified grade and the joint condition, chained to the last one |
| HealthAggregator.VectorBodyInjective | aegis-cl-psi/src/compaction_health_aggregator.rs:114-130 | the hashed encoding determines every field of a vector |
| MomentumTracker.CompactionMomentumLog.Append | aegis-cl-psi/src/compaction_momentum_tracker.rs:117-151 | the shifting vector yields score[n] minus score[max(0, n-3)], its direction and window size, for every history; the log is the hash chain of these records |
| MomentumTracker.GossipMomentumLog.Append | aegis-cl-psi/src/compaction_gossip_momentum_tracker.rs:122-158 | the ring buffer yields the same chained record for every history |
| MomentumTracker.BothWindowsAgree | aegis-cl-psi/src/compaction_gossip_momentum_tracker.rs:125-146 | both implementations hold equal records, hashes included, after equal observations |
| MomentumTracker.WorseningRunIsBounded | aegis-cl-psi/src/compaction_momentum_tracker.rs:120-130 | for any window and score range, an unbroken declining run has at most range times span members, start-up windows included |
| MomentumTracker.StaircaseAttainsBound | aegis-cl-psi/src/compaction_momentum_tracker.rs:120-130 | that bound is attained |
| MomentumTracker.MomentumBodyInjective | aegis-cl-psi/src/compaction_momentum_tracker.rs:79-94 | the hashed encoding determines every field of a record, the unhashed joint condition included |
| EpochReport.CompactionEpochReportLog.Append | aegis-cl-psi/src/compaction_epoch_report.rs:106-149 | health fields from the vector, trend fields from the momentum record, chained to the last report |
| EpochReport.ReportBodyInjective | aegis-cl-psi/src/compaction_epoch_report.rs:61-86 | the hashed encoding determines every field of a report |
| AlertClassifier.TrailingDeclinesExactly | aegis-cl-psi/src/compaction_alert_classifier.rs:119-126 | the streak is the number of last reports that decline, no more and no less |
| AlertClassifier.CompactionAlertLog.Append | aegis-cl-psi/src/compaction_alert_classifier.rs:119-153 | the counter is the saturated trailing streak of the history; the log is the hash chain of the alerts with level and streak |
| AlertClassifier.GreenExactly | aegis-cl-psi/src/compaction_alert_classifier.rs:7-10 | green iff the joint condition is at most nominal and at most one decline is trailing; as described except with exactly one decline |
| AlertClassifier.CompactionAlertLog.MaxConsecutiveDeclining | aegis-cl-psi/src/compaction_alert_classifier.rs:167-169 | the attained maximum of the recorded streaks, 0 for an empty log |
| AlertClassifier.AlertBodyInjective | aegis-cl-psi/src/compaction_alert_classifier.rs:83-97 | the hashed encoding determines every field of an alert |
| SlaTracker.SlaTrackerLog.Append | aegis-cl-psi/src/compaction_sla_tracker.rs:73-104 | compliance and violation mask of the epoch, chained to the last record |
| SlaTracker.SlaTrackerLog.ComplianceRate | aegis-cl-psi/src/compaction_sla_tracker.rs:117-122 | the rate in per mille with 32-bit casts and product |
| SlaTracker.RateExactly | aegis-cl-psi/src/compaction_sla_tracker.rs:117-122 | below 2^32 records the rate is the true per mille iff a thousand times the compliant count fits in 32 bits, and is then 1000 iff every epoch complies; beyond, exactly when small counts and full compliance are reported truly |
| SlaTracker.FullComplianceCanReadZero | aegis-cl-psi/src/compaction_sla_tracker.rs:121 | a log of 4,294,968 compliant epochs has the rate 0 |
| SlaTracker.LongLogCanReadHalf | aegis-cl-psi/src/compaction_sla_tracker.rs:121 | a log of 2^32 + 2 epochs of which all but one comply has the rate 500 |
| SlaTracker.SlaBodyInjective | aegis-cl-psi/src/compaction_sla_tracker.rs:46-57 | the hashed encoding determines every field of a record, the unhashed checks included |
| SlaTracker.MaskIsFaithful | aegis-cl-psi/src/compaction_sla_tracker.rs:78-85 | the mask encodes the three checks without loss and is zero iff compliant |
| EpochComparator.EpochComparatorLog.Compare | aegis-cl-psi/src/compaction_epoch_comparator.rs:91-135 | the signed delta of two reports with wrapping casts and subtractions, chained to the last one |
| EpochComparator.SignedDifferenceExactly | aegis-cl-psi/src/compaction_epoch_comparator.rs:100 | the pruning delta is the difference wrapped once, and the true one iff that fits in 64 bits |
| EpochComparator.FlagsByteIsFaithful | aegis-cl-psi/src/compaction_epoch_comparator.rs:51-57 | no flag is lost in the flags byte |
| EpochComparator.DeltaBodyInjective | aegis-cl-psi/src/compaction_epoch_comparator.rs:59-75 | the hashed encoding determines every field of a delta |
| TrendAnalyzer.TrendAnalyzerLog.Append | aegis-cl-psi/src/compaction_trend_analyzer.rs:121-162 | the record is the classification of the last four deltas of the whole history; the log is the hash chain of the records |
| TrendAnalyzer.TrendAsDescribed | aegis-cl-psi/src/compaction_trend_analyzer.rs:9-13 | on full windows the one-sided trends are as described except when a delta points the other way; witnesses |
| TrendAnalyzer.ShortWindowAsDescribed | aegis-cl-psi/src/compaction_trend_analyzer.rs:9-13 | on shorter windows the one-sided trends are as described except when three moves meet one the other way, or when one move, two of three, but fewer than three meet none |
| TrendAnalyzer.MovesChangeBadness | aegis-cl-psi/src/compaction_trend_analyzer.rs:126-132 | in a stretch without improvements each degradation costs a step of joint score or chain validity, and the mirror image |
| TrendAnalyzer.NoFourTrendsInARow | aegis-cl-psi/src/compaction_trend_analyzer.rs:51-63 | past the first six comparisons four one-sided trends in a row are impossible |
| TrendAnalyzer.TrendRunIsBounded | aegis-cl-psi/src/compaction_trend_analyzer.rs:51-63 | a degrading or improving run has at most six members, at most three if it reaches past comparison six |
| TrendAnalyzer.SixInARow | aegis-cl-psi/src/compaction_trend_analyzer.rs:52-58 | four moves suffice for six one-sided trends in the start-up windows |
| TrendAnalyzer.ThreePastSix | aegis-cl-psi/src/compaction_trend_analyzer.rs:51-63 | four moves in a row on full windows make three one-sided trends past comparison six |
| TrendAnalyzer.NetPrunedTelescopes | aegis-cl-psi/src/compaction_trend_analyzer.rs:133 | the wrapping sum of deltas over any stretch is the newest total minus the oldest, wrapped once, for all 64-bit totals |
| TrendAnalyzer.TrendReportsTotals | aegis-cl-psi/src/compaction_trend_analyzer.rs:128-133 | each record's net delta is the change of the total over its window, wrapped once, and the true change iff that fits in 64 bits |
| TrendAnalyzer.TrendBodyInjective | aegis-cl-psi/src/compaction_trend_analyzer.rs:80-98 | the hashed encoding determines every field of a trend record |
| Dashboard.CompactionDashboard.Record | aegis-cl-psi/src/compaction_dashboard.rs:133-174 | one frame per call with the classified condition and the compliance rate, chained to the last one |
| Dashboard.StableAsDescribed | aegis-cl-psi/src/compaction_dashboard.rs:7-11 | a stable frame is as described except for compliant steady epochs with an amber alert; a witness |
| Dashboard.FrameBodyInjective | aegis-cl-psi/src/compaction_dashboard.rs:92-111 | the hashed encoding determines every field of a frame |
| CapacityPlanner.CapacityPlannerLog.Append | aegis-cl-psi/src/compaction_capacity_planner.rs:95-151 | the projection is that of the last four totals of the history, with truncating division and wrapping casts and subtraction; the log is the hash chain of the projections |
| CapacityPlanner.ProjectionBrackets | aegis-cl-psi/src/compaction_capacity_planner.rs:116-124 | current + k*d is within the ceiling and current + (k+1)*d beyond it; the 32-bit cap never takes effect |
| CapacityPlanner.NoRiskExactly | aegis-cl-psi/src/compaction_capacity_planner.rs:116-124 | the sentinel appears iff there is room and no growth |
| CapacityPlanner.EpochsLeftAsDescribed | aegis-cl-psi/src/compaction_capacity_planner.rs:9-14 | the projection is as described except at capacity without growth; a witness |
| CapacityPlanner.MeanOfConstantGrowth | aegis-cl-psi/src/compaction_capacity_planner.rs:105-112 | the mean of a constant growth or decline is that growth, in short and full windows, iff the change over the window fits in 64 bits |
| CapacityPlanner.ProjectionCountsDown | aegis-cl-psi/src/compaction_capacity_planner.rs:95-124 | under constant growth a positive projection drops by exactly one per epoch |
| CapacityPlanner.ProjectionBodyInjective | aegis-cl-psi/src/compaction_capacity_planner.rs:54-72 | the hashed encoding determines every field of a projection |
| EpochPipeline.CompactionPipeline.Observe | aegis-cl-psi/src/compaction_dashboard.rs:127-132 | one epoch through all logs in the documented order keeps every log, hashes and ledger included, equal to what the history determines |
| EpochPipeline.CompactionPipeline.FeedLedger | aegis-cl-psi/src/compaction_epoch_ledger.rs:92-127 | one ledger entry per epoch binds the last hash of every log, genesis for a log still empty |
| EpochPipeline.CompactionPipeline.FeedReport | aegis-cl-psi/src/compaction_epoch_report.rs:102-105 | vector, momentum record and report of the same epoch are joined |
| PipelineBounds.DecliningStreakIsBounded | aegis-cl-psi/src/compaction_alert_classifier.rs:119-126 | no history has more than nine declining epochs in a row, so the saturating counter never saturates |
| PipelineBounds.DecliningStreakOfNine | aegis-cl-psi/src/compaction_alert_classifier.rs:119-126 | a history of ten epochs attains nine |
| PipelineBounds.TrendStreakIsBounded | aegis-cl-psi/src/compaction_trend_analyzer.rs:121-135 | no history has more than six degrading, or improving, trends in a row |
| PipelineBounds.TrendStreakOfSix | aegis-cl-psi/src/compaction_trend_analyzer.rs:121-135 | wired histories attain six in both directions |
| PipelineBounds.LateTrendStreakOfThree | aegis-cl-psi/src/compaction_trend_analyzer.rs:121-135 | wired histories attain three past the first six comparisons in both directions |
| PipelineBounds.ImpossibleMasks | aegis-cl-psi/src/compaction_sla_tracker.rs:83-85 | broken chains spoil the joint condition, so masks 4 and 6 never occur |
| PipelineBounds.PossibleMasks | aegis-cl-psi/src/compaction_sla_tracker.rs:83-85 | the other six masks all occur |
| PipelineBounds.FramesExactly | aegis-cl-psi/src/compaction_dashboard.rs:54-73 | for every wired history: Thriving or Stable iff joint at most nominal, chains valid, at most one trailing decline, and an improving or steady trend; Critical iff joint critical, three trailing declines, or a degrading trend |
| PipelineBounds.GreenOnDecline | aegis-cl-psi/src/compaction_alert_classifier.rs:7-10 | a wired history whose second epoch declines with a green alert |
| PipelineBounds.ThreeImprovementsNotImproving | aegis-cl-psi/src/compaction_trend_analyzer.rs:9-13 | a wired history with three improvements in the last four comparisons and a volatile trend |
| PipelineBounds.OneMoveIsATrend | aegis-cl-psi/src/compaction_trend_analyzer.rs:51-58 | wired histories of two epochs that improve, or degrade, have the trend after one comparison |
| PipelineBounds.AmberSteadyIsConcerning | aegis-cl-psi/src/compaction_dashboard.rs:7-11 | a wired history whose last frame complies with a steady trend and an amber alert and is concerning |
| PipelineLedger.TerminalHashBindsHistory | aegis-cl-psi/src/compaction_epoch_ledger.rs:4-22 | equal terminal hashes of two wired ledgers mean equal input histories, up to constitutional conditions with the same joint condition, or an explicit collision or genesis preimage |
| PipelineLedger.SameHistorySameLedger | aegis-cl-psi/src/compaction_epoch_ledger.rs:92-127 | histories that differ only so have the same ledger |
| PipelineLedger.ConditionIsNotBound | aegis-cl-psi/src/compaction_epoch_ledger.rs:7-17 | two histories with different conditions, different health vectors and the same ledger |
| PipelineLogs.InputLogsAreBound | aegis-cl-psi/src/compaction_epoch_report.rs:61-86 | for any two wired histories: equal last hashes of the vector, momentum or report logs mean equal records throughout, an explicit collision, or a preimage of genesis |
| PipelineLogs.VerdictLogsAreBound | aegis-cl-psi/src/compaction_dashboard.rs:92-111 | the same of the alert, service level, delta, trend, frame and projection logs |
| Bytes.BigEndianRoundTrip | aegis-cl-psi/src/compaction_broadcaster.rs:41-44 | decoding a big-endian encoding gives the number back |
| Bytes.FromBigEndianRoundTrip | aegis-cl-psi/src/compaction_broadcaster.rs:117-120 | every byte string is the encoding of the number it denotes |
| HashChain.LinkedConcat | aegis-cl-psi/src/compaction_audit_seal.rs:85-115 | a chain is two adjoining windows, the second started from the tip of the first |
| HashChain.SameTipSameChain | aegis-cl-psi/src/compaction_epoch_ledger.rs:47-69 | chains of equal length with equal tips are identical, start included, or contain an explicit collision |
| HashChain.SameTip | aegis-cl-psi/src/compaction_epoch_ledger.rs:129-146 | for any lengths: identical, a collision, or a preimage of the starting value |
| HashChain.ChainOfHolds | aegis-cl-psi/src/compaction_epoch_ledger.rs:129-146 | a log built by appending verifies |
| HashChain.LastHashBinds | aegis-cl-psi/src/compaction_epoch_ledger.rs:86-90 | intact logs of any lengths with one last hash hold equal encodings, or a collision, or a preimage of genesis |
| HashChain.LastHashBindsLog | aegis-cl-psi/src/compaction_epoch_report.rs:163-188 | where the encoding tells records apart, intact logs with one last hash are equal, hashes included, or a collision, or a preimage of genesis |
| HashChain.VerifyLinks | aegis-cl-psi/src/compaction_epoch_ledger.rs:129-146 | the verification loop accepts exactly the intact chains and names the first broken link |
| HashChain.VerifyLog | aegis-cl-psi/src/compaction_alert_classifier.rs:171-191 | the verify_chain of every chained log accepts exactly the intact ones and names the first broken record |
| EpochLedger.EntryLinkInjective | aegis-cl-psi/src/compaction_epoch_ledger.rs:47-69 | the hashed encoding determines every field of an entry |
| EpochLedger.TerminalHashBindsLedger | aegis-cl-psi/src/compaction_epoch_ledger.rs:86-90 | accepted ledgers with one terminal hash are equal entry by entry, up to an explicit collision or genesis preimage |
| EpochLedger.CompactionEpochLedger.Append | aegis-cl-psi/src/compaction_epoch_ledger.rs:93-127 | one entry is added and the ledger verifies afterwards iff it did before |
| EpochLedger.CompactionEpochLedger.VerifyChain | aegis-cl-psi/src/compaction_epoch_ledger.rs:129-146 | accepts exactly the intact ledgers, altered ones included, and names the first broken entry |
| AuditSeal.WindowConcat | aegis-cl-psi/src/compaction_audit_seal.rs:85-115 | w1 ++ w2 is valid iff both are and w2 starts from w1's last hash |
| AuditSeal.ChainIsGenesisWindow | aegis-cl-psi/src/compaction_epoch_ledger.rs:129-146 | the ledger's verification is whole-window validity plus a genesis first link |
| AuditSeal.EveryWindowHolds | aegis-cl-psi/src/compaction_audit_seal.rs:74-115 | every contiguous window of an intact ledger certifies as valid |
| AuditSeal.SealHashBindsWindow | aegis-cl-psi/src/compaction_audit_seal.rs:42-58 | a seal hash pins the whole certified window and the link it continues from, up to an explicit collision |
| AuditSeal.CompactionAuditSealLog.Certify | aegis-cl-psi/src/compaction_audit_seal.rs:76-137 | the seal carries the exact verdict on the window; an empty window is refused and changes nothing |
| AuditSeal.CompactionAuditSealLog.VerifyChain | aegis-cl-psi/src/compaction_audit_seal.rs:149-170 | accepts exactly the intact seal logs |
| GossipHealth.ReportLinkInjective | aegis-cl-psi/src/compaction_gossip_health.rs:80-104 | the hashed encoding determines every field of a report |
| GossipHealth.CompactionGossipHealthMonitor.Record | aegis-cl-psi/src/compaction_gossip_health.rs:155-188 | one classified report is added and the chain verifies afterwards iff it did before |
| GossipHealth.CompactionGossipHealthMonitor.VerifyChain | aegis-cl-psi/src/compaction_gossip_health.rs:190-214 | accepts exactly the intact chains and names the first broken report |
| GossipHealth.GreenExactly | aegis-cl-psi/src/compaction_gossip_health.rs:106-123 | green iff nothing diverged, failed, lagged, regressed or was missed, and admitted peers saw a delivery |
| GossipHealth.ClassifyIsMonotone | aegis-cl-psi/src/compaction_gossip_health.rs:106-123 | inputs that are worse in every respect never get a better class |
| GossipHealthCompactor.FromPruned | aegis-cl-psi/src/compaction_gossip_health_compactor.rs:49-75 | rolling hash, count, last epoch, and the attained worst class of the prefix |
| GossipHealthCompactor.AnchorEpochIsHighestExactly | aegis-cl-psi/src/compaction_gossip_health_compactor.rs:9-10 | wherever the reports are cut, the anchor epoch is the highest pruned one, iff epochs never go backwards |
| GossipHealthCompactor.AnchorCanUnderstateEpoch | aegis-cl-psi/src/compaction_gossip_health_compactor.rs:70 | a verified chain of epochs 2 and 1 whose anchor has epoch 1 |
| GossipHealthCompactor.RollingHashBinds | aegis-cl-psi/src/compaction_gossip_health_compactor.rs:58-68 | equal-length prefixes with one rolling hash are identical or contain an explicit collision |
| GossipHealthCompactor.CompactGossipHealth | aegis-cl-psi/src/compaction_gossip_health_compactor.rs:109-133 | pruned plus retained is the original length; the anchor and certificate commit to the pruned prefix |
| GossipHealthCompactor.CertificateBytesInjective | aegis-cl-psi/src/compaction_gossip_health_compactor.rs:91-105 | the certificate's preimage determines epoch, counts and anchor |
| GossipHealthCompactor.PrunedRecordsBindReports | aegis-cl-psi/src/compaction_gossip_health.rs:80-104 | verified stretches, wherever in a chain they start, that agree on the pruned records agree on the full reports, up to an explicit collision |
| GossipHealthCompactor.CertificateBindsPrunedReports | aegis-cl-psi/src/compaction_gossip_health_compactor.rs:91-133 | equal certificates mean equal counts and identical pruned reports, or an explicit collision |
| GossipHealthCompactor.PruningSplitsVerification | aegis-cl-psi/src/compaction_gossip_health_compactor.rs:107-116 | a stretch verifies iff its pruned prefix does and the retained suffix continues from it |
| GossipHealthCompactor.LogTipBindsPrunedReports | aegis-cl-psi/src/compaction_gossip_health_compactor.rs:144-188 | logs of any lengths with one tip have one length and pruned the same reports in every compaction, up to an explicit collision or a preimage of genesis |
| GossipHealthCompactor.GossipHealthCompactionLog.Append | aegis-cl-psi/src/compaction_gossip_health_compactor.rs:161-172 | one entry is added, the pruned total grows by its count, and the log verifies iff it did before |
| Broadcaster.EncodeFrame | aegis-cl-psi/src/compaction_broadcaster.rs:38-58 | the 32 bytes filled in place are the documented layout with its checksum |
| Broadcaster.FrameRoundTrip | aegis-cl-psi/src/compaction_broadcaster.rs:109-134 | decoding an encoded frame succeeds and recovers every encoded field |
| Broadcaster.DecodeDeterminesFrame | aegis-cl-psi/src/compaction_broadcaster.rs:109-134 | two accepted frames are equal iff they decode equally and agree in the flag byte |
| Broadcaster.FlagByteIsNotUnique | aegis-cl-psi/src/compaction_broadcaster.rs:130 | every encoded valid frame has a different accepted frame with the same decoding |
| Broadcaster.CompactionBroadcaster.Encode | aegis-cl-psi/src/compaction_broadcaster.rs:94-107 | one record with the encoded frame is added and the log verifies iff it did before |
| BroadcastValidator.WatermarkIsMaximumAccepted | aegis-cl-psi/src/compaction_broadcast_validator.rs:124-128 | the tracked epoch is the attained maximum over the accepted frames |
| BroadcastValidator.WatermarkIsMaximumIntact | aegis-cl-psi/src/compaction_broadcast_validator.rs:102-128 | it is also the maximum over all intact frames: a rejected intact frame lies below it |
| BroadcastValidator.AcceptedExactly | aegis-cl-psi/src/compaction_broadcast_validator.rs:102-123 | a frame is accepted iff it is intact and no earlier intact frame has a larger epoch |
| BroadcastValidator.VerdictExactly | aegis-cl-psi/src/compaction_broadcast_validator.rs:104-123 | each of the four verdicts as a closed form: intact or not, outdated by an earlier intact frame or not |
| BroadcastValidator.AcceptedEpochsNeverDecrease | aegis-cl-psi/src/compaction_broadcast_validator.rs:111-128 | epochs of accepted frames never decrease |
| BroadcastValidator.BroadcastAcceptedExactly | aegis-cl-psi/src/compaction_broadcast_validator.rs:102-145 | encoded seals are all accepted iff their end epochs do not decrease |
| BroadcastValidator.LedgerBroadcastAccepted | aegis-cl-psi/src/compaction_audit_seal.rs:81-83 | seals of consecutive windows of an ordered ledger are all accepted |
| BroadcastValidator.CompactionBroadcastValidator.Validate | aegis-cl-psi/src/compaction_broadcast_validator.rs:102-145 | the tracked epoch and every logged verdict are those of the frames seen so far, and the log is their hash chain |
| PeerRegistry.MembershipAfter | aegis-cl-psi/src/compaction_gossip_dispatcher.rs:124-133 | replaying one event changes the membership of its peer only |
| PeerRegistry.AdmitKeepsConsistent | aegis-cl-psi/src/compaction_peer_registry.rs:110-121 | after an admission the live map is what the event log says |
| PeerRegistry.EvictKeepsConsistent | aegis-cl-psi/src/compaction_peer_registry.rs:124-133 | after an eviction the live map is what the event log says |
| PeerRegistry.CompactionPeerRegistry.AdmitPeer | aegis-cl-psi/src/compaction_peer_registry.rs:110-121 | refused iff present; otherwise one peer and one event are added |
| PeerRegistry.CompactionPeerRegistry.EvictPeer | aegis-cl-psi/src/compaction_peer_registry.rs:124-133 | refused iff absent; otherwise one peer goes and one event is added |
| PeerRegistry.CompactionPeerRegistry.PushEvent | aegis-cl-psi/src/compaction_peer_registry.rs:135-157 | the event is chained to the last one |
| GossipDispatcher.ReplayEvents | aegis-cl-psi/src/compaction_gossip_dispatcher.rs:123-133 | the loop rebuilds the set that the events leave, one event at a time |
| GossipDispatcher.ReplayedExactly | aegis-cl-psi/src/compaction_gossip_dispatcher.rs:123-133 | that set is the peers whose last event is an admission |
| GossipDispatcher.DispatchReachesLivePeers | aegis-cl-psi/src/compaction_gossip_dispatcher.rs:111-141 | the replayed list is the live peers in increasing order iff their number is 0 or not a multiple of 2^32 |
| GossipDispatcher.NobodyIsMissed | aegis-cl-psi/src/compaction_gossip_dispatcher.rs:111-141 | delivered equals the peer count in every case |
| GossipDispatcher.CompactionGossipDispatcher.Dispatch | aegis-cl-psi/src/compaction_gossip_dispatcher.rs:97-158 | corrupt frames are refused without trace; an intact one adds one chained record with the list replayed from the event log, and misses nobody when that log agrees with the live map |
| GossipDispatcher.EveryRunIsConsistent | aegis-cl-psi/src/compaction_gossip_dispatcher.rs:83-91 | over every interleaving of admissions, evictions and replaying dispatches the event log describes the live peers, total_missed stays 0 and both logs verify |
| GossipDispatcher.EveryDispatchListsThePeers | aegis-cl-psi/src/compaction_gossip_dispatcher.rs:113-139 | after every run the replayed list of an intact dispatch names precisely the current peers in increasing order iff their number is 0 or not a multiple of 2^32 |
| GossipDispatcher.AdmissionsAdmit | aegis-cl-psi/src/compaction_peer_registry.rs:110-121 | any number of peers up to 2^64 can be admitted one after the other |
| GossipDispatcher.FullRegistryGetsNothing | aegis-cl-psi/src/compaction_gossip_dispatcher.rs:113-116 | after 2^32 admissions a dispatch lists nobody |
| BandwidthTracker.BandwidthRegistry.RequestBytes | aegis-cl-psi/src/bandwidth_tracker.rs:209-247 | the decision and the new registry, other peers untouched |
| BandwidthTracker.BandwidthRegistry.SealEpoch | aegis-cl-psi/src/bandwidth_tracker.rs:250-264 | succeeds iff no peer is stale; adds chained records in id order up to the first stale peer |
| BandwidthTracker.PeersAreIsolated | aegis-cl-psi/src/bandwidth_tracker.rs:209-247 | in any interleaved trace, seals included, a peer's counters are those of its own requests alone |
| BandwidthTracker.DecisionsAreIsolated | aegis-cl-psi/src/bandwidth_tracker.rs:232-246 | so are the decisions |
| BandwidthTracker.CountersConserveBytes | aegis-cl-psi/src/bandwidth_tracker.rs:224-245 | current epoch is the largest asked for; allowed within budget; the three counters sum to the bytes asked since that epoch opened, absent 64-bit saturation |
| BandwidthTracker.AllowedExactly | aegis-cl-psi/src/bandwidth_tracker.rs:7-11 | a request is allowed iff budget is left and the request fits, or the budget is the largest 64-bit value; denied iff the budget is used up; as described apart from overflow and empty requests |
| BandwidthTracker.AllowedBeyondBudget | aegis-cl-psi/src/bandwidth_tracker.rs:232-239 | both exceptions occur |
| BandwidthTracker.DenialIsFinal | aegis-cl-psi/src/bandwidth_tracker.rs:224-246 | after any trace a peer with no budget left is denied until it opens a later epoch, whatever it asks in between |
| BandwidthTracker.EveryRegistryIsSound | aegis-cl-psi/src/bandwidth_tracker.rs:131-150 | in every reachable registry every log is an intact chain, its epochs strictly increase, stay at or below the current epoch, and record at most the budget |
| BandwidthTracker.SealingExactly | aegis-cl-psi/src/bandwidth_tracker.rs:250-264 | sealing succeeds iff no peer at the epoch sealed it before; then exactly those peers gain one record |
| BandwidthTracker.FailedSealChangesNothingExactly | aegis-cl-psi/src/bandwidth_tracker.rs:252-262 | when a failed seal leaves the registry unchanged |
| BandwidthTracker.OpenedAsDescribed | aegis-cl-psi/src/bandwidth_tracker.rs:207-230 | a request opens its epoch as described iff that is not an earlier one; a witness |
| BandwidthTracker.SealsEveryoneExactly | aegis-cl-psi/src/bandwidth_tracker.rs:249-264 | a successful seal records every peer iff every peer is at the epoch |
| BandwidthTracker.EveryRecordWasSealed | aegis-cl-psi/src/bandwidth_tracker.rs:250-264 | after any trace, every record is the counters of the peer's own requests at the moment of a seal of that epoch |
| BandwidthTracker.UnsealedUsageIsDropped | aegis-cl-psi/src/bandwidth_tracker.rs:224-255 | a reachable registry in which a peer's bytes of an unsealed epoch are in no record once it moves on |
| BandwidthTracker.RecordBodyExactly | aegis-cl-psi/src/bandwidth_tracker.rs:66-82 | the hashed encoding determines every field of a record except the budget and the percentage |
| BandwidthTracker.AlteredPercentageIsUnnoticed | aegis-cl-psi/src/bandwidth_tracker.rs:167-178 | altering those two in a log changes neither its verdict nor its last hash |
| BandwidthTracker.LastHashBindsPeerLog | aegis-cl-psi/src/bandwidth_tracker.rs:124-150 | equal last hashes of peers' logs in reachable registries of one budget mean the same log, percentages included, an explicit collision, or a preimage of genesis |
| BandwidthTracker.SealCanFailPartway | aegis-cl-psi/src/bandwidth_tracker.rs:252-262 | a reachable registry in which a failed seal has recorded a peer |
| BandwidthTracker.UtilizationExactly | aegis-cl-psi/src/bandwidth_tracker.rs:93-97 | within budget no cap is needed, and the percentage is the true one iff a hundred times the allowance fits in 64 bits; it is then 100 iff the budget is used up |
| BandwidthTracker.FullBudgetCanReadZero | aegis-cl-psi/src/bandwidth_tracker.rs:93-97 | a reachable registry that records 0 percent for a used-up budget of 2^63 bytes |
| DevsScheduler.TickKeepsInvariant | aegis-cl-psi/src/devs_scheduler.rs:62-106 | the log stays a connected path with increasing steps; streak 0 in LocalInference, below the limit in Degraded, at max(2, threshold) in CloudVerify; rollback is never left |
| DevsScheduler.DEVSScheduler.TickOnce | aegis-cl-psi/src/devs_scheduler.rs:62-106 | one tick of the object is one step of the state machine, without 32-bit overflow |
| DevsScheduler.DEVSScheduler.MoveTo | aegis-cl-psi/src/devs_scheduler.rs:49-59 | a transition is logged iff the mode changes |
| DevsScheduler.EveryRunKeepsInvariant | aegis-cl-psi/src/devs_scheduler.rs:37-106 | every run from a new scheduler satisfies the invariant |
| DevsScheduler.StepCountsTicks | aegis-cl-psi/src/devs_scheduler.rs:69 | recorded steps are tick numbers |
| DevsScheduler.RollbackAsDescribed | aegis-cl-psi/src/devs_scheduler.rs:4-8 | a tick rolls back as described except when rollback is called for outside cloud verification with budget left |
| DevsScheduler.CallCanGoUnheeded | aegis-cl-psi/src/devs_scheduler.rs:71-79 | for every threshold a first tick that calls for a rollback only degrades |
| DevsScheduler.RollbackExactly | aegis-cl-psi/src/devs_scheduler.rs:71-74 | in rollback iff some tick so far exhausted the budget or asked for a rollback during cloud verification |
| DevsScheduler.TroubleEscalates | aegis-cl-psi/src/devs_scheduler.rs:76-95 | cloud verification starts after exactly max(2, threshold) troubled ticks in a row |
| DevsScheduler.CloudVerifyEnteredExactly | aegis-cl-psi/src/devs_scheduler.rs:76-95 | cloud verification is entered at the end of exactly max(2, threshold) troubled ticks from local inference, and in no other way |
| DevsScheduler.DocumentedEdgesExactly | aegis-cl-psi/src/devs_scheduler.rs:4-8 | a run uses only the documented edges iff no tick of it is a recovery from Degraded |
| DevsScheduler.RecoveryHappens | aegis-cl-psi/src/devs_scheduler.rs:86-88 | for every threshold such a recovery occurs in two ticks |
| EpochSeal.SaturatedTotalExactly | aegis-cl-psi/src/compaction_epoch_seal.rs:99 | the total is the sum of the parts, or the largest 64-bit value when that does not fit |
| EpochSeal.CompactionSealChain.Append | aegis-cl-psi/src/compaction_epoch_seal.rs:90-116 | the new seal totals its parts and the chain verifies iff it did before |
| EpochSeal.CompactionSealChain.VerifyChain | aegis-cl-psi/src/compaction_epoch_seal.rs:118-141 | accepts exactly the chains whose links, totals and hashes hold, and names the first bad seal |
| TelemetryEncoder.CertifierLog.CertifyWindow | aegis-cl-psi/src/compaction_audit_certifier.rs:111-154 | the certificate carries the last seal's running totals, zeros for an empty window |
| TelemetryEncoder.Encode | aegis-cl-psi/src/compaction_telemetry_encoder.rs:57-74 | the 24 bytes filled in place are the documented layout |
| TelemetryEncoder.FrameRoundTrip | aegis-cl-psi/src/compaction_telemetry_encoder.rs:77-89 | decoding recovers every encoded field |
| TelemetryEncoder.SharesOfWhole | aegis-cl-psi/src/compaction_telemetry_encoder.rs:58-62 | three shares of a whole sum to 98, 99 or 100, or to 0 for nothing, and the cap never takes effect |
| TelemetryEncoder.ShareExactly | aegis-cl-psi/src/compaction_telemetry_encoder.rs:58-62 | a share is the true percentage iff a hundred times the part fits in 64 bits; a witness beyond |
| TelemetryEncoder.SharesCanLoseTwoPoints | aegis-cl-psi/src/compaction_telemetry_encoder.rs:58-62 | both ends of that range occur |
| TelemetryEncoder.TelemetryOfChain | aegis-cl-psi/src/compaction_audit_certifier.rs:118-124 | the decoded percentages of any window of an intact seal chain obey that bound |
| CechDescent.ExtensionsExactly | aegis-cl-psi/src/cech_descent.rs:77-96 | the nested loops visit every increasing index tuple and no other |
| CechDescent.BuildLevel1 | aegis-cl-psi/src/cech_descent.rs:48-57 | the pairwise differences of all increasing pairs, in order |
| CechDescent.BuildLevel2 | aegis-cl-psi/src/cech_descent.rs:59-73 | the defects of all increasing triples, in order |
| CechDescent.BuildLevel3 | aegis-cl-psi/src/cech_descent.rs:75-96 | the defects of all increasing quadruples, in order |
| CechDescent.Build | aegis-cl-psi/src/cech_descent.rs:42-103 | all three levels and the mean of the last |
| CechDescent.LevelSizes | aegis-cl-psi/src/cech_descent.rs:48-96 | the levels have n choose 2, 3 and 4 entries |
| CechDescent.DetourExactly | aegis-cl-psi/src/cech_descent.rs:67 | the outer absolute value is redundant; a detour is free iff the middle value lies between |
| CechDescent.TripleCoheresExactly | aegis-cl-psi/src/cech_descent.rs:64-69 | a triple's defect is 0 iff the middle model lies between the others in every shared coordinate |
| CechDescent.QuadCoheresExactly | aegis-cl-psi/src/cech_descent.rs:81-91 | a quadruple's defect is 0 iff both pairs differ equally in every shared coordinate |
| CechDescent.InvariantExactly | aegis-cl-psi/src/cech_descent.rs:98-100 | k3_invariant is non-negative and 0 iff every quadruple coheres |
| CechDescent.EqualModelsCohere | aegis-cl-psi/src/cech_descent.rs:98-100 | equal models have no defect at either level |

## Left out

- EvaluateChain: requires that the evaluation returns, since the source overflows its stack otherwise; `ReturnsExactly` says on which graphs it does.
- EvaluateChain: confidences are reals, so rounding, NaN and infinities are not modelled.
- Build: model outputs are reals, so single-precision rounding is not modelled.
- SealEpoch: models a build without overflow checks, in which the percentage's product wraps; with the checks on, the same input stops the program inside the seal. The same holds of `Share`, `Rate`, `SignedDifference` and the sums of `NetPruned`.
- RateExactly: where neither the record count nor a thousand times the compliant count fits in 32 bits, states the rate through the cut counts, and when full compliance reads 1000, but no other condition for it to be the true one.
- Observe: requires that the number of records is no positive multiple of 2^32 when the compliance rate is taken, since the source divides by zero there.
- TelemetryOfChain: assumes that 100 times the total fits 64 bits; `ShareExactly` covers single shares beyond that.
- CompactGossipHealth: requires fewer than 2^64 reports, as a slice in memory always has.
- GossipMomentumLog: the gossip twin's own condition type and record type have the same ordinals and fields and are not repeated.
- CompactionPipeline: the source documents this wiring of the logs but leaves it to its callers; it has no object of this name.
- Step, epoch, event and report counters are unbounded; sums of 64-bit counts such as `total_delivered` do not wrap.
- The scheduler's `rollback_buffer` is never read or written by a tick and has no counterpart.
- Simple filters and counters of the logs (`red_count`, `direction_count`, `critical_projections`, `avg_utilization_pct` and their like).
- The record log of the telemetry encoder and the remaining gossip twins: the same code with other types.
- SHA-256 itself.
