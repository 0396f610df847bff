/** What holds of the wired pipeline and of no single module: bounds on streaks and trends over
    every history, and which verdicts can occur. */
module PipelineBounds {
  import opened Bytes
  import opened HealthAggregator
  import opened MomentumTracker
  import opened EpochReport
  import opened AlertClassifier
  import opened SlaTracker
  import opened EpochComparator
  import opened EpochPipeline
  import TrendAnalyzer
  import Dashboard

  /** No history whatever has more than nine declining epochs in a row. */
  lemma DecliningStreakIsBounded(os: seq<Observation>, n: nat)
    requires n <= |os|
    ensures TrailingDeclines(Reports(os)[..n]) <= 9
    ensures Streak(Reports(os)[..n]) == TrailingDeclines(Reports(os)[..n])
  {
    var rs := Reports(os)[..n];
    var k := TrailingDeclines(rs);
    TrailingDeclinesExactly(rs);
    var xs := ObservedBy(os);
    forall i | n - k <= i < n
      ensures Worsens(Scores(xs), MOMENTUM_SPAN, i)
    {
      assert rs[i].direction == Declining;
      DeclinesWhenWorse(xs, i);
    }
    WorseningRunIsBounded(Scores(xs), MOMENTUM_SPAN, 3, n - k, k);
  }

  function ConditionFor(score: int): OverallCondition {
    if score <= 0 then Optimal else if score == 1 then Good else if score == 2 then Alert else Emergency
  }

  /** A history with given scores: sound chains, nothing pruned. */
  function HistoryWithScores(scores: seq<int>): (os: seq<Observation>)
    ensures |os| == |scores|
  {
    seq(|scores|, i requires 0 <= i < |scores| => Observation(i % U64_BOUND, true, 0, ConditionFor(scores[i]), 0, 0, 0))
  }

  lemma ScoresOfHistory(scores: seq<int>)
    requires forall i :: 0 <= i < |scores| ==> 0 <= scores[i] <= 3
    ensures Scores(ObservedBy(HistoryWithScores(scores))) == scores
  {
    var ss := Scores(ObservedBy(HistoryWithScores(scores)));
    forall i | 0 <= i < |scores|
      ensures ss[i] == scores[i]
    {
      assert ss[i] == FromAxes(Healthy, ConditionFor(scores[i])).Score();
    }
  }

  predicate AreScores(scores: seq<int>) {
    forall i :: 0 <= i < |scores| ==> 0 <= scores[i] <= 3
  }

  /** Which epochs of such a history decline, and what their reports say. */
  lemma ReportOfScores(scores: seq<int>, i: nat)
    requires AreScores(scores) && i < |scores|
    ensures var r := Reports(HistoryWithScores(scores))[i];
      && r.joint.Score() == scores[i] && r.chainsValid
      && (r.direction == Declining <==> scores[i] > scores[WindowStart(i, MOMENTUM_WINDOW)])
  {
    ScoresOfHistory(scores);
    JointOfScore(scores[i]);
    DeclinesWhenWorse(ObservedBy(HistoryWithScores(scores)), i);
  }

  /** The bound is attained: the staircase history declines nine times in a row. */
  lemma DecliningStreakOfNine()
    ensures var os := HistoryWithScores(Staircase(3, 3));
      |os| == 10 && TrailingDeclines(Reports(os)) == 9
  {
    var scores := Staircase(3, 3);
    var os := HistoryWithScores(scores);
    StaircaseAttainsBound(3, 3);
    var xs := ObservedBy(os);
    ScoresOfHistory(scores);
    forall i | 1 <= i < 10
      ensures Reports(os)[i].direction == Declining
    {
      DeclinesWhenWorse(xs, i);
    }
    AtLeastDeclines(Reports(os), 9);
    assert Reports(os)[..10] == Reports(os);
    DecliningStreakIsBounded(os, 10);
  }

  /** No history has more than six epochs in a row with a degrading trend, or with an improving
      one; once past the first six comparisons, no more than three. */
  lemma TrendStreakIsBounded(os: seq<Observation>, first: nat, length: nat, worse: bool)
    requires first + length <= |Deltas(os)|
    requires forall i :: first <= i < first + length ==> TrendAnalyzer.TrendIs(Deltas(os), worse, i)
    ensures length <= 6 && (first + length > 6 ==> length <= 3)
  {
    TrendAnalyzer.TrendRunIsBounded(Reports(os), first, length, worse);
  }

  function Deltas(os: seq<Observation>): seq<Delta> {
    DeltasOf(Reports(os))
  }

  function WorseningHistory(): seq<Observation> {
    [ Observation(0, true, 0, Optimal, 0, 0, 0), Observation(1, true, 0, Good, 0, 0, 0),
      Observation(2, true, 0, Good, 0, 0, 0), Observation(3, true, 0, Alert, 0, 0, 0),
      Observation(4, false, 0, Alert, 0, 0, 0), Observation(5, false, 0, Emergency, 0, 0, 0),
      Observation(6, false, 0, Emergency, 0, 0, 0) ]
  }

  function RecoveringHistory(): seq<Observation> {
    [ Observation(0, false, 0, Emergency, 0, 0, 0), Observation(1, false, 0, Alert, 0, 0, 0),
      Observation(2, false, 0, Alert, 0, 0, 0), Observation(3, true, 0, Alert, 0, 0, 0),
      Observation(4, true, 0, Good, 0, 0, 0), Observation(5, true, 0, Optimal, 0, 0, 0),
      Observation(6, true, 0, Optimal, 0, 0, 0) ]
  }

  /** Whether a comparison of two observations counts as a move, from the inputs alone. */
  predicate Moved(a: Observation, b: Observation, worse: bool) {
    if worse then JointOf(b).Score() > JointOf(a).Score() || (a.chainsValid && !b.chainsValid)
    else JointOf(b).Score() < JointOf(a).Score() || (!a.chainsValid && b.chainsValid)
  }

  lemma MovedIsFlagged(os: seq<Observation>, i: nat, worse: bool)
    requires i + 1 < |os|
    ensures |Deltas(os)| == |os| - 1
    ensures TrendAnalyzer.Moves(TrendAnalyzer.FlagsOf(Deltas(os)[i]), worse) <==> Moved(os[i], os[i + 1], worse)
  {
    assert Deltas(os)[i] == DeltaOf(ReportAt(os, i), ReportAt(os, i + 1));
  }

  lemma HistoryMoves(worse: bool, i: nat)
    requires i < 6
    ensures var os := if worse then WorseningHistory() else RecoveringHistory();
      !Moved(os[i], os[i + 1], !worse) && (Moved(os[i], os[i + 1], worse) <==> i != 1 && i != 5)
  {
    if i == 0 {
    } else if i == 1 {
    } else if i == 2 {
    } else if i == 3 {
    } else if i == 4 {
    } else {
    }
  }

  /** The bound of six is attained in both directions. */
  lemma TrendStreakOfSix(worse: bool)
    ensures var os := if worse then WorseningHistory() else RecoveringHistory();
      |Deltas(os)| == 6 && forall n :: 0 <= n < 6 ==> TrendAnalyzer.TrendIs(Deltas(os), worse, n)
  {
    var os := if worse then WorseningHistory() else RecoveringHistory();
    assert |os| == 7;
    forall i | 0 <= i < 6
      ensures |Deltas(os)| == 6
      ensures !TrendAnalyzer.Moves(TrendAnalyzer.FlagsOf(Deltas(os)[i]), !worse)
      ensures TrendAnalyzer.Moves(TrendAnalyzer.FlagsOf(Deltas(os)[i]), worse) <==> i != 1 && i != 5
    {
      HistoryMoves(worse, i);
      MovedIsFlagged(os, i, worse);
      MovedIsFlagged(os, i, !worse);
    }
    TrendAnalyzer.SixInARow(Deltas(os), worse);
  }

  /** Four moves one way after a quiet start. */
  function LateHistory(worse: bool): seq<Observation> {
    if worse then
      [ Observation(0, true, 0, Optimal, 0, 0, 0), Observation(1, true, 0, Optimal, 0, 0, 0),
        Observation(2, true, 0, Optimal, 0, 0, 0), Observation(3, true, 0, Optimal, 0, 0, 0),
        Observation(4, true, 0, Optimal, 0, 0, 0), Observation(5, true, 0, Good, 0, 0, 0),
        Observation(6, true, 0, Alert, 0, 0, 0), Observation(7, false, 0, Alert, 0, 0, 0),
        Observation(8, false, 0, Emergency, 0, 0, 0), Observation(9, false, 0, Emergency, 0, 0, 0) ]
    else
      [ Observation(0, false, 0, Emergency, 0, 0, 0), Observation(1, false, 0, Emergency, 0, 0, 0),
        Observation(2, false, 0, Emergency, 0, 0, 0), Observation(3, false, 0, Emergency, 0, 0, 0),
        Observation(4, false, 0, Emergency, 0, 0, 0), Observation(5, false, 0, Alert, 0, 0, 0),
        Observation(6, true, 0, Alert, 0, 0, 0), Observation(7, true, 0, Good, 0, 0, 0),
        Observation(8, true, 0, Optimal, 0, 0, 0), Observation(9, true, 0, Optimal, 0, 0, 0) ]
  }

  lemma LateHistoryMoves(worse: bool, i: nat)
    requires i < 9
    ensures var os := LateHistory(worse);
      !Moved(os[i], os[i + 1], !worse) && (Moved(os[i], os[i + 1], worse) <==> 4 <= i <= 7)
  {
    if i <= 3 {
    } else if i == 4 {
    } else if i == 5 {
    } else if i == 6 {
    } else if i == 7 {
    } else {
    }
  }

  /** The bound of three past the first six comparisons is attained too. */
  lemma LateTrendStreakOfThree(worse: bool)
    ensures |Deltas(LateHistory(worse))| == 9
    ensures forall n :: 6 <= n < 9 ==> TrendAnalyzer.TrendIs(Deltas(LateHistory(worse)), worse, n)
  {
    var os := LateHistory(worse);
    assert |os| == 10;
    forall i | 0 <= i < 9
      ensures |Deltas(os)| == 9
      ensures !TrendAnalyzer.Moves(TrendAnalyzer.FlagsOf(Deltas(os)[i]), !worse)
      ensures TrendAnalyzer.Moves(TrendAnalyzer.FlagsOf(Deltas(os)[i]), worse) <==> 4 <= i <= 7
    {
      LateHistoryMoves(worse, i);
      MovedIsFlagged(os, i, worse);
      MovedIsFlagged(os, i, !worse);
    }
    TrendAnalyzer.ThreePastSix(Deltas(os), worse);
  }

  // ---------------------------------------------------------------- reachable verdicts

  /** Broken chains always spoil the joint condition too, so two of the eight masks never
      occur. */
  lemma ImpossibleMasks(os: seq<Observation>, n: nat)
    requires n < |os|
    ensures SlaAt(Reports(os), n).violationMask != 4 && SlaAt(Reports(os), n).violationMask != 6
    ensures !os[n].chainsValid ==> JointOf(os[n]).Score() >= 2 && SlaAt(Reports(os), n).violationMask % 2 == 1
  {
    JointConditionBounds(os[n].chainsValid, os[n].totalPruned, os[n].cond);
  }

  function OneEpoch(chainsValid: bool, totalPruned: U64, cond: OverallCondition): seq<Observation> {
    [Observation(1, chainsValid, totalPruned, cond, 0, 0, 0)]
  }

  /** The mask of a history of a single epoch. */
  lemma MaskOfOneEpoch(chainsValid: bool, totalPruned: U64, cond: OverallCondition)
    ensures var joint := FromAxes(ClassifyGrade(chainsValid, totalPruned), cond);
      LastMask(OneEpoch(chainsValid, totalPruned, cond))
      == Bit(joint.Score() > 1, 1) + Bit(joint == JointCritical, 2) + Bit(!chainsValid, 4)
  {
    var os := OneEpoch(chainsValid, totalPruned, cond);
    var rs := Reports(os);
    assert rs[..1] == rs && rs[0].direction == MomentumTracker.Stable;
    assert TrailingDeclines(rs) == 0;
  }

  /** A history and an epoch of it that show the mask. */
  function WitnessFor(mask: nat): seq<Observation> {
    if mask == 1 then OneEpoch(true, 0, Alert)
    else if mask == 2 then HistoryWithScores([0, 0, 0, 1, 1, 1])
    else if mask == 3 then OneEpoch(true, 0, Emergency)
    else if mask == 5 then OneEpoch(false, 0, Optimal)
    else if mask == 7 then OneEpoch(false, 1000, Optimal)
    else OneEpoch(true, 0, Optimal)
  }

  function LastMask(os: seq<Observation>): Byte
    requires os != []
  {
    SlaAt(Reports(os), |os| - 1).violationMask
  }

  /** All the other masks do occur, in the last epoch of their witness. */
  lemma PossibleMasks(mask: nat)
    requires mask < 8 && mask != 4 && mask != 6
    ensures LastMask(WitnessFor(mask)) == mask
  {
    if mask == 2 {
      RedWithGoodJoint();
    } else {
      OneEpochMasks(mask);
    }
  }

  lemma OneEpochMasks(mask: nat)
    requires mask in {0, 1, 3, 5, 7}
    ensures LastMask(WitnessFor(mask)) == mask
  {
    var chainsValid, totalPruned := mask != 5 && mask != 7, if mask == 7 then 1000 else 0;
    var cond := if mask == 1 then Alert else if mask == 3 then Emergency else Optimal;
    assert WitnessFor(mask) == OneEpoch(chainsValid, totalPruned, cond);
    MaskOfOneEpoch(chainsValid, totalPruned, cond);
  }

  /** Three mild declines in a row raise a red alert although the joint condition is fine. */
  lemma RedWithGoodJoint()
    ensures LastMask(HistoryWithScores([0, 0, 0, 1, 1, 1])) == 2
  {
    var scores := [0, 0, 0, 1, 1, 1];
    var rs := Reports(HistoryWithScores(scores));
    forall i | 3 <= i < 6
      ensures rs[i].direction == Declining
    {
      ReportOfScores(scores, i);
    }
    assert rs[..6] == rs;
    AtLeastDeclines(rs, 3);
    ReportOfScores(scores, 5);
  }

  lemma FrameVerdict(alert: AlertRecord, r: Report, trend: TrendAnalyzer.TrendClass)
    requires alert.level == AlertClassifier.Classify(r.joint, r.direction, alert.streak)
    requires alert.streak > 0 ==> r.direction == Declining
    ensures var c := Dashboard.Condition(alert.level, trend, SlaOf(alert, r).compliant);
      var calm := r.joint.Score() <= 1 && r.chainsValid && alert.streak <= 1;
      && (c == Dashboard.Thriving <==> calm && trend == TrendAnalyzer.ImprovingTrend)
      && (c == Dashboard.Stable <==> calm && trend == TrendAnalyzer.Steady)
      && (c == Dashboard.Critical <==>
            r.joint == JointCritical || alert.streak >= 3 || trend == TrendAnalyzer.DegradingTrend)
  {
  }

  /** What each frame means in terms of the inputs: Thriving or Stable exactly when the joint
      condition is at most nominal, the chains are valid, at most one decline is trailing and
      the trend is improving or steady; Critical exactly when the joint condition is critical,
      three declines are trailing or the trend is degrading. Every recorded frame is the last
      one of the history up to it. */
  lemma FramesExactly(os: seq<Observation>)
    requires |os| >= 2
    ensures var f, declines, last := LastFrame(Reports(os)), TrailingDeclines(Reports(os)), os[|os| - 1];
      var calm := JointOf(last).Score() <= 1 && last.chainsValid && declines <= 1;
      && (f.condition == Dashboard.Thriving <==> calm && f.trend == TrendAnalyzer.ImprovingTrend)
      && (f.condition == Dashboard.Stable <==> calm && f.trend == TrendAnalyzer.Steady)
      && (f.condition == Dashboard.Critical <==>
            JointOf(last) == JointCritical || declines >= 3 || f.trend == TrendAnalyzer.DegradingTrend)
  {
    var rs, n := Reports(os), |os| - 1;
    DecliningStreakIsBounded(os, n + 1);
    assert rs[..n + 1] == rs;
    FrameVerdict(AlertAt(rs, n), rs[n], TrendAnalyzer.TrendAt(DeltasOf(rs), n - 1).trend);
  }

  // ---------------------------------------------------------------- where the descriptions fail

  /** An alert can be green on a declining epoch. */
  lemma GreenOnDecline()
    ensures var rs := Reports(HistoryWithScores([0, 1]));
      |rs| == 2 && rs[1].direction == Declining && AlertAt(rs, 1).level == Green
  {
    var rs := Reports(HistoryWithScores([0, 1]));
    ReportOfScores([0, 1], 0);
    ReportOfScores([0, 1], 1);
    assert rs[..2] == rs;
    LastDeclines(rs, 1);
    AlertClassifier.GreenExactly(rs, 1);
  }

  /** The streak is `k` when the last `k` reports decline and the one before does not. */
  lemma LastDeclines(rs: seq<Report>, k: nat)
    requires k < |rs| && rs[|rs| - k - 1].direction != Declining
    requires forall i :: |rs| - k <= i < |rs| ==> rs[i].direction == Declining
    ensures TrailingDeclines(rs) == k
  {
    AtLeastDeclines(rs, k);
    TrailingDeclinesExactly(rs);
  }

  /** Three improvements in the last four comparisons, and the trend is volatile. */
  lemma ThreeImprovementsNotImproving()
    ensures var ds := Deltas(HistoryWithScores([3, 2, 1, 0, 1]));
      && |ds| == 4 && TrendAnalyzer.TrendAt(ds, 3).improvements == 3
      && TrendAnalyzer.TrendAt(ds, 3).trend == TrendAnalyzer.Volatile
  {
    var os := HistoryWithScores([3, 2, 1, 0, 1]);
    var ds := Deltas(os);
    forall i, worse | 0 <= i < 4
      ensures TrendAnalyzer.Moves(TrendAnalyzer.FlagsOf(ds[i]), worse) <==> (worse <==> i == 3)
    {
      FlagsOfScores([3, 2, 1, 0, 1], i, worse);
    }
    TrendAnalyzer.ThreeThenBack(ds);
  }

  /** The first comparison alone can make a trend, in both directions. */
  lemma OneMoveIsATrend(worse: bool)
    ensures var ds := Deltas(HistoryWithScores(if worse then [0, 1] else [1, 0]));
      |ds| == 1 && TrendAnalyzer.TrendIs(ds, worse, 0)
  {
    var scores := if worse then [0, 1] else [1, 0];
    var os := HistoryWithScores(scores);
    forall w: bool
      ensures TrendAnalyzer.Moves(TrendAnalyzer.FlagsOf(Deltas(os)[0]), w) <==> w == worse
    {
      FlagsOfScores(scores, 0, w);
    }
    TrendAnalyzer.OneMove(Deltas(os), worse);
  }

  lemma MovesOfScores(scores: seq<int>, i: nat, worse: bool)
    requires i + 1 < |scores| && 0 <= scores[i] <= 3 && 0 <= scores[i + 1] <= 3
    ensures var os := HistoryWithScores(scores);
      Moved(os[i], os[i + 1], worse) <==> if worse then scores[i + 1] > scores[i] else scores[i + 1] < scores[i]
  {
    JointOfScore(scores[i]);
    JointOfScore(scores[i + 1]);
  }

  lemma FlagsOfScores(scores: seq<int>, i: nat, worse: bool)
    requires i + 1 < |scores| && 0 <= scores[i] <= 3 && 0 <= scores[i + 1] <= 3
    ensures var ds := Deltas(HistoryWithScores(scores));
      && |ds| == |scores| - 1
      && (TrendAnalyzer.Moves(TrendAnalyzer.FlagsOf(ds[i]), worse) <==>
            if worse then scores[i + 1] > scores[i] else scores[i + 1] < scores[i])
  {
    MovedIsFlagged(HistoryWithScores(scores), i, worse);
    MovesOfScores(scores, i, worse);
  }

  lemma JointOfScore(score: int)
    requires 0 <= score <= 3
    ensures FromAxes(Healthy, ConditionFor(score)).Score() == score
  {
  }

  /** A compliant epoch with a steady trend and an amber alert makes a concerning frame. */
  lemma AmberSteadyIsConcerning()
    ensures var f := LastFrame(Reports(HistoryWithScores([0, 0, 0, 1, 1])));
      && f.slaCompliant && f.trend == TrendAnalyzer.Steady && f.alert == Amber
      && f.condition == Dashboard.Concerning
  {
    AmberAfterTwoDeclines();
    SteadyAfterOneSetback();
    assert SlaAt(Reports(HistoryWithScores([0, 0, 0, 1, 1])), 4).compliant;
  }

  lemma SteadyAfterOneSetback()
    ensures var ds := Deltas(HistoryWithScores([0, 0, 0, 1, 1]));
      |ds| == 4 && TrendAnalyzer.TrendAt(ds, 3).trend == TrendAnalyzer.Steady
  {
    var scores := [0, 0, 0, 1, 1];
    var os := HistoryWithScores(scores);
    forall i, worse | 0 <= i < 4
      ensures TrendAnalyzer.Moves(TrendAnalyzer.FlagsOf(Deltas(os)[i]), worse) <==> (worse && i == 2)
    {
      FlagsOfScores(scores, i, worse);
    }
    TrendAnalyzer.OneSetback(Deltas(os));
  }

  lemma AmberAfterTwoDeclines()
    ensures var rs := Reports(HistoryWithScores([0, 0, 0, 1, 1]));
      |rs| == 5 && AlertAt(rs, 4).level == Amber && rs[4].joint == JointNominal && rs[4].chainsValid
  {
    var scores := [0, 0, 0, 1, 1];
    var rs := Reports(HistoryWithScores(scores));
    ReportOfScores(scores, 2);
    ReportOfScores(scores, 3);
    ReportOfScores(scores, 4);
    LastDeclines(rs, 2);
    assert rs[..5] == rs;
  }
}
