/** Multi-epoch trends over a rolling window of four deltas. */
module TrendAnalyzer {
  import opened Wrappers
  import opened Bytes
  import opened Arithmetic
  import opened HashChain
  import opened MomentumTracker
  import opened EpochReport
  import opened EpochComparator

  const TREND_WINDOW: nat := 4

  datatype TrendClass = Steady | ImprovingTrend | DegradingTrend | Volatile
  {
    function AsByte(): Byte {
      match this
      case Steady => 0
      case ImprovingTrend => 1
      case DegradingTrend => 2
      case Volatile => 3
    }
  }

  datatype TrendRecord = TrendRecord(
    epoch: U64, trend: TrendClass, windowSize: nat, improvements: U32, degradations: U32, netPruned: int)

  /** What the window keeps of a delta. */
  datatype Flags = Flags(improvement: bool, degradation: bool, prunedDelta: int)

  function FlagsOf(d: Delta): Flags {
    Flags(d.Improvement(), d.Degradation(), d.prunedDelta)
  }

  function Threshold(windowSize: nat): nat {
    if windowSize >= TREND_WINDOW then 3 else if windowSize <= 2 then 1 else windowSize - 1
  }

  function Classify(improvements: nat, degradations: nat, windowSize: nat): TrendClass {
    if improvements >= Threshold(windowSize) && degradations == 0 then ImprovingTrend
    else if degradations >= Threshold(windowSize) && improvements == 0 then DegradingTrend
    else if improvements >= 1 && degradations >= 1 then Volatile
    else Steady
  }

  /** The improving trend is described as three improvements in the last four deltas, the
      degrading one likewise. On a full window the code meets that except when the window also
      holds a delta the other way. */
  lemma TrendAsDescribed(improvements: nat, degradations: nat)
    ensures (Classify(improvements, degradations, TREND_WINDOW) == ImprovingTrend <==> improvements >= 3)
            <==> !(improvements >= 3 && degradations > 0)
    ensures (Classify(improvements, degradations, TREND_WINDOW) == DegradingTrend <==> degradations >= 3)
            <==> !(degradations >= 3 && improvements > 0)
    ensures Classify(3, 1, TREND_WINDOW) == Volatile && Classify(1, 3, TREND_WINDOW) == Volatile
  {
  }

  /** On a shorter window the code already calls one move a trend, two on a window of three,
      where the description asks for three: it also differs as soon as that many moves, but fewer
      than three, have none against them. */
  lemma ShortWindowAsDescribed(improvements: nat, degradations: nat, windowSize: nat)
    requires 1 <= windowSize < TREND_WINDOW && improvements <= windowSize && degradations <= windowSize
    ensures var early := if windowSize == 3 then 2 else 1;
      && ((Classify(improvements, degradations, windowSize) == ImprovingTrend <==> improvements >= 3)
          <==> !(improvements >= 3 && degradations > 0) && !(early <= improvements < 3 && degradations == 0))
      && ((Classify(improvements, degradations, windowSize) == DegradingTrend <==> degradations >= 3)
          <==> !(degradations >= 3 && improvements > 0) && !(early <= degradations < 3 && improvements == 0))
  {
  }

  /** Whether an entry moves up in badness (`worse`) or down. */
  predicate Moves(f: Flags, worse: bool) {
    if worse then f.degradation else f.improvement
  }

  /** How many entries do. */
  function Count(fs: seq<Flags>, worse: bool): (n: nat)
    ensures n <= |fs|
  {
    if fs == [] then 0
    else
      var last := fs[|fs| - 1];
      Count(fs[..|fs| - 1], worse) + (if Moves(last, worse) then 1 else 0)
  }

  /** The sum of the deltas in 64 bits; every addition wraps. */
  function NetPruned(fs: seq<Flags>): int {
    if fs == [] then 0 else Wrap64(NetPruned(fs[..|fs| - 1]) + fs[|fs| - 1].prunedDelta)
  }

  function AllFlags(ds: seq<Delta>): (fs: seq<Flags>)
    ensures |fs| == |ds|
  {
    seq(|ds|, i requires 0 <= i < |ds| => FlagsOf(ds[i]))
  }

  /** The window of deltas that ends at `n`. */
  function WindowAt(ds: seq<Delta>, n: nat): seq<Flags>
    requires n < |ds|
  {
    AllFlags(ds)[WindowStart(n, TREND_WINDOW)..n + 1]
  }

  function TrendAt(ds: seq<Delta>, n: nat): TrendRecord
    requires n < |ds|
  {
    var w := WindowAt(ds, n);
    TrendRecord(ds[n].epoch, Classify(Count(w, false), Count(w, true), |w|), |w|,
                Count(w, false), Count(w, true), NetPruned(w))
  }

  function TrendBody(t: TrendRecord): ByteString {
    Be8(t.epoch) + [t.trend.AsByte()] + BigEndian(t.windowSize, 2) + Be4(t.improvements) + Be4(t.degradations)
    + SignedBigEndian(t.netPruned, 8)
  }

  /** The numbers fit their encodings. */
  predicate TrendFits(t: TrendRecord) {
    t.windowSize < 0x1_0000 && -I64_BOUND <= t.netPruned < I64_BOUND
  }

  /** The encoding determines every field of such a record. */
  lemma TrendBodyInjective(s: TrendRecord, t: TrendRecord)
    requires TrendFits(s) && TrendFits(t) && TrendBody(s) == TrendBody(t)
    ensures s == t
  {
    var s1, t1 := Be8(s.epoch) + [s.trend.AsByte()], Be8(t.epoch) + [t.trend.AsByte()];
    var s2, t2 := s1 + BigEndian(s.windowSize, 2), t1 + BigEndian(t.windowSize, 2);
    var s3, t3 := s2 + Be4(s.improvements), t2 + Be4(t.improvements);
    SplitEqual(s3 + Be4(s.degradations), t3 + Be4(t.degradations),
               SignedBigEndian(s.netPruned, 8), SignedBigEndian(t.netPruned, 8));
    SplitEqual(s3, t3, Be4(s.degradations), Be4(t.degradations));
    SplitEqual(s2, t2, Be4(s.improvements), Be4(t.improvements));
    SplitEqual(s1, t1, BigEndian(s.windowSize, 2), BigEndian(t.windowSize, 2));
    SplitEqual(Be8(s.epoch), Be8(t.epoch), [s.trend.AsByte()], [t.trend.AsByte()]);
    Be8Injective(s.epoch, t.epoch);
    OneByte(s.trend.AsByte(), t.trend.AsByte());
    Be2Injective(s.windowSize, t.windowSize);
    Be4Injective(s.improvements, t.improvements);
    Be4Injective(s.degradations, t.degradations);
    Signed8Injective(s.netPruned, t.netPruned);
  }

  /** The trends of a history of deltas. */
  function TrendsOf(ds: seq<Delta>): (ts: seq<TrendRecord>)
    ensures |ts| == |ds|
  {
    seq(|ds|, i requires 0 <= i < |ds| => TrendAt(ds, i))
  }

  /** One delta more adds one trend to the chain. */
  lemma TrendsGrow(sha: Hash, ds: seq<Delta>, d: Delta)
    ensures var chain := ChainOf(sha, TrendBody, TrendsOf(ds));
      ChainOf(sha, TrendBody, TrendsOf(ds + [d])) == chain + [Next(sha, TrendBody, chain, TrendAt(ds + [d], |ds|))]
  {
    forall i | 0 <= i < |ds|
      ensures TrendAt(ds + [d], i) == TrendAt(ds, i)
    {
      assert WindowAt(ds + [d], i) == WindowAt(ds, i);
    }
    assert TrendsOf(ds + [d]) == TrendsOf(ds) + [TrendAt(ds + [d], |ds|)];
    ChainGrows(sha, TrendBody, TrendsOf(ds), TrendAt(ds + [d], |ds|));
  }

  /** The window of the deltas seen so far. */
  function LastWindow(ds: seq<Delta>): seq<Flags> {
    if ds == [] then [] else WindowAt(ds, |ds| - 1)
  }

  /** Dropping the oldest entry of a full window and adding the newest delta gives the next
      window. */
  lemma DeltasShift(ds: seq<Delta>, d: Delta)
    ensures var w := LastWindow(ds);
      LastWindow(ds + [d]) == (if |w| == TREND_WINDOW then w[1..] else w) + [FlagsOf(d)]
  {
    assert AllFlags(ds + [d]) == AllFlags(ds) + [FlagsOf(d)];
  }

  class TrendAnalyzerLog {
    const sha: Hash
    var records: seq<Chained<TrendRecord>>
    var window: seq<Flags>
    ghost var seen: seq<Delta>

    ghost predicate Valid()
      reads this
    {
      records == ChainOf(sha, TrendBody, TrendsOf(seen)) && window == LastWindow(seen)
    }

    constructor (sha: Hash)
      ensures this.sha == sha && Valid() && seen == [] && records == []
    {
      this.sha := sha;
      records := [];
      window := [];
      seen := [];
    }

    method Append(delta: Delta) returns (t: Chained<TrendRecord>)
      requires Valid()
      modifies this
      ensures Valid()
      ensures seen == old(seen) + [delta] && records == old(records) + [t]
      ensures t.content == TrendAt(seen, |seen| - 1)
    {
      TrendsGrow(sha, seen, delta);
      var content := Shift(delta);
      t := Next(sha, TrendBody, records, content);
      assert ChainOf(sha, TrendBody, TrendsOf(seen + [delta])) == records + [t];
      records := records + [t];
      seen := seen + [delta];
    }

    /** Moves the window on by one delta and classifies it. */
    method Shift(delta: Delta) returns (t: TrendRecord)
      requires window == LastWindow(seen)
      modifies this`window
      ensures window == LastWindow(seen + [delta]) && t == TrendAt(seen + [delta], |seen|)
    {
      DeltasShift(seen, delta);
      if |window| == TREND_WINDOW {
        window := window[1..];
      }
      window := window + [Flags(delta.Improvement(), delta.Degradation(), delta.prunedDelta)];
      var improvements, degradations := Count(window, false), Count(window, true);
      t := TrendRecord(delta.epoch, Classify(improvements, degradations, |window|), |window|,
                       improvements, degradations, NetPruned(window));
    }

    method VerifyChain() returns (valid: bool, broken: Option<nat>)
      ensures valid <==> LogHolds(sha, TrendBody, records)
      ensures valid ==> broken == None
      ensures !valid ==> broken.Some? && FirstBroken(sha, Genesis(), LinksOf(TrendBody, records), broken.value)
    {
      valid, broken := VerifyLog(sha, TrendBody, records);
    }
  }

  // ---------------------------------------------------------------- how long a trend can last

  /** How bad a report is: the joint score, plus one for broken chains. */
  function Badness(r: Report): (b: nat)
    ensures b <= 4
  {
    r.joint.Score() + (if r.chainsValid then 0 else 1)
  }

  lemma {:induction false} CountSplits(a: seq<Flags>, b: seq<Flags>, worse: bool)
    ensures Count(a + b, worse) == Count(a, worse) + Count(b, worse)
    decreases |b|
  {
    if b == [] {
      assert a + b == a;
    } else {
      CountSplits(a, b[..|b| - 1], worse);
      assert (a + b)[..|a + b| - 1] == a + b[..|b| - 1];
    }
  }

  lemma CountStep(fs: seq<Flags>, lo: nat, hi: nat, worse: bool)
    requires lo < hi <= |fs|
    ensures Count(fs[lo..hi], worse) == Count(fs[lo..hi - 1], worse) + (if Moves(fs[hi - 1], worse) then 1 else 0)
  {
    assert fs[lo..hi][..hi - lo - 1] == fs[lo..hi - 1];
  }

  /** A comparison without improvement does not lower the badness, and raises it if it degrades;
      and the mirror image. */
  predicate StepCosts(f: Flags, before: int, after: int) {
    && (!f.improvement ==> after - before >= if f.degradation then 1 else 0)
    && (!f.degradation ==> before - after >= if f.improvement then 1 else 0)
  }

  lemma DeltaCosts(prev: Report, curr: Report)
    ensures StepCosts(FlagsOf(DeltaOf(prev, curr)), Badness(prev), Badness(curr))
  {
  }

  ghost predicate FollowBadness(fs: seq<Flags>, bs: seq<int>) {
    |bs| == |fs| + 1 && forall i :: 0 <= i < |fs| ==> StepCosts(fs[i], bs[i], bs[i + 1])
  }

  lemma {:induction false} MovesCost(fs: seq<Flags>, bs: seq<int>, lo: nat, hi: nat, worse: bool)
    requires FollowBadness(fs, bs) && lo <= hi <= |fs| && Count(fs[lo..hi], !worse) == 0
    ensures Count(fs[lo..hi], worse) <= if worse then bs[hi] - bs[lo] else bs[lo] - bs[hi]
    decreases hi - lo
  {
    if lo < hi {
      CountStep(fs, lo, hi, worse);
      CountStep(fs, lo, hi, !worse);
      MovesCost(fs, bs, lo, hi - 1, worse);
      assert StepCosts(fs[hi - 1], bs[hi - 1], bs[hi]);
    }
  }

  lemma FlagsAt(rs: seq<Report>, i: nat)
    requires i + 1 < |rs|
    ensures AllFlags(DeltasOf(rs))[i] == FlagsOf(DeltaOf(rs[i], rs[i + 1]))
  {
    assert DeltasOf(rs)[i] == DeltaOf(rs[i], rs[i + 1]);
  }

  lemma FlagsFollowBadness(rs: seq<Report>, bs: seq<int>)
    requires rs != [] && |bs| == |rs| && forall i :: 0 <= i < |rs| ==> bs[i] == Badness(rs[i])
    ensures FollowBadness(AllFlags(DeltasOf(rs)), bs)
  {
    forall i | 0 <= i < |rs| - 1
      ensures StepCosts(AllFlags(DeltasOf(rs))[i], bs[i], bs[i + 1])
    {
      FlagsAt(rs, i);
      DeltaCosts(rs[i], rs[i + 1]);
    }
  }

  /** In a stretch without any movement the other way, each counted move changes the badness by
      at least one in its direction. */
  lemma MovesChangeBadness(rs: seq<Report>, lo: nat, hi: nat, worse: bool)
    requires lo <= hi < |rs|
    requires Count(AllFlags(DeltasOf(rs))[lo..hi], !worse) == 0
    ensures Count(AllFlags(DeltasOf(rs))[lo..hi], worse)
         <= if worse then Badness(rs[hi]) - Badness(rs[lo]) else Badness(rs[lo]) - Badness(rs[hi])
  {
    var bs := seq(|rs|, i requires 0 <= i < |rs| => Badness(rs[i]));
    FlagsFollowBadness(rs, bs);
    MovesCost(AllFlags(DeltasOf(rs)), bs, lo, hi, worse);
  }

  function TrendTowards(worse: bool): TrendClass {
    if worse then DegradingTrend else ImprovingTrend
  }

  predicate TrendIs(ds: seq<Delta>, worse: bool, n: nat)
    requires n < |ds|
  {
    TrendAt(ds, n).trend == TrendTowards(worse)
  }

  lemma {:induction false} CountOfTail(fs: seq<Flags>, k: nat, worse: bool)
    requires k <= |fs|
    ensures Count(fs, worse) == Count(fs[..k], worse) + Count(fs[k..], worse)
  {
    assert fs == fs[..k] + fs[k..];
    CountSplits(fs[..k], fs[k..], worse);
  }

  lemma TwoWindows(fs: seq<Flags>, lo: nat)
    requires lo + 7 <= |fs|
    ensures fs[lo..lo + 7][..4] == fs[lo..lo + 4] && fs[lo..lo + 7][3..] == fs[lo + 3..lo + 7]
  {
  }

  /** Seven flags made of two windows of four that share one entry. */
  lemma OverlappingWindows(all: seq<Flags>, worse: bool)
    requires |all| == 7
    ensures Count(all, worse) >= Count(all[..4], worse) + Count(all[3..], worse) - 1
    ensures Count(all[..4], worse) == 0 && Count(all[3..], worse) == 0 ==> Count(all, worse) == 0
  {
    CountOfTail(all, 3, worse);
    CountOfTail(all[..4], 3, worse);
    assert all[..4][..3] == all[..3];
  }

  /** What a one-sided trend says about a full window. */
  lemma TrendOfFullWindow(ds: seq<Delta>, n: nat, worse: bool)
    requires 3 <= n < |ds| && TrendIs(ds, worse, n)
    ensures Count(AllFlags(ds)[n - 3..n + 1], worse) >= 3 && Count(AllFlags(ds)[n - 3..n + 1], !worse) == 0
  {
    assert WindowAt(ds, n) == AllFlags(ds)[n - 3..n + 1];
  }

  /** Two such windows that share one delta hold five moves one way and none the other. */
  lemma FiveMoves(ds: seq<Delta>, n: nat, worse: bool)
    requires 6 <= n < |ds| && TrendIs(ds, worse, n - 3) && TrendIs(ds, worse, n)
    ensures Count(AllFlags(ds)[n - 6..n + 1], worse) >= 5 && Count(AllFlags(ds)[n - 6..n + 1], !worse) == 0
  {
    TrendOfFullWindow(ds, n - 3, worse);
    TrendOfFullWindow(ds, n, worse);
    TwoWindows(AllFlags(ds), n - 6);
    OverlappingWindows(AllFlags(ds)[n - 6..n + 1], worse);
    OverlappingWindows(AllFlags(ds)[n - 6..n + 1], !worse);
  }

  /** Without movement the other way there are at most four moves: the badness has five values. */
  lemma AtMostFourMoves(rs: seq<Report>, lo: nat, hi: nat, worse: bool)
    requires lo <= hi < |rs| && Count(AllFlags(DeltasOf(rs))[lo..hi], !worse) == 0
    ensures Count(AllFlags(DeltasOf(rs))[lo..hi], worse) <= 4
  {
    MovesChangeBadness(rs, lo, hi, worse);
  }

  /** From delta 6 on, when all windows involved are full, four one-sided trends in a row are
      impossible: two windows that share a single delta would hold five moves one way, and a
      report can only get worse (or better) four times. */
  lemma NoFourTrendsInARow(rs: seq<Report>, n: nat, worse: bool)
    requires 6 <= n < |DeltasOf(rs)|
    ensures exists i :: n - 3 <= i <= n && !TrendIs(DeltasOf(rs), worse, i)
  {
    var ds := DeltasOf(rs);
    if TrendIs(ds, worse, n - 3) && TrendIs(ds, worse, n) {
      FiveMoves(ds, n, worse);
      AtMostFourMoves(rs, n - 6, n + 1, worse);
    }
    assert !TrendIs(ds, worse, n - 3) || !TrendIs(ds, worse, n);
  }

  /** A run of one-sided trends has at most three members if any of its members is at delta 6
      or later and at most six altogether, wherever it starts. */
  lemma TrendRunIsBounded(rs: seq<Report>, first: nat, length: nat, worse: bool)
    requires first + length <= |DeltasOf(rs)|
    requires forall i :: first <= i < first + length ==> TrendIs(DeltasOf(rs), worse, i)
    ensures length <= 6
    ensures first + length > 6 ==> length <= 3
  {
    if length > 3 && first + length > 6 {
      NoFourTrendsInARow(rs, first + length - 1, worse);
    }
  }

  // ---------------------------------------------------------------- pruning totals

  lemma NetPrunedStep(fs: seq<Flags>, lo: nat, hi: nat)
    requires lo < hi <= |fs|
    ensures NetPruned(fs[lo..hi]) == Wrap64(NetPruned(fs[lo..hi - 1]) + fs[hi - 1].prunedDelta)
  {
    assert fs[lo..hi][..hi - lo - 1] == fs[lo..hi - 1];
  }

  /** The flags carry the wrapped differences of the totals. */
  ghost predicate FollowTotals(fs: seq<Flags>, totals: seq<int>) {
    |totals| == |fs| + 1 && forall i :: 0 <= i < |fs| ==> fs[i].prunedDelta == Wrap64(totals[i + 1] - totals[i])
  }

  lemma SumTelescopes(sum: int, delta: int, oldest: int, previous: int, newest: int)
    requires sum == Wrap64(previous - oldest) && delta == Wrap64(newest - previous)
    ensures Wrap64(sum + delta) == Wrap64(newest - oldest)
  {
    Wrap64OfSum(previous - oldest, newest - previous);
  }

  /** The sum over any stretch telescopes: it is the newest total minus the oldest, wrapped once,
      however often the sums on the way have wrapped. */
  lemma {:induction false} NetPrunedTelescopes(fs: seq<Flags>, totals: seq<int>, lo: nat, hi: nat)
    requires FollowTotals(fs, totals) && lo <= hi <= |fs|
    ensures NetPruned(fs[lo..hi]) == Wrap64(totals[hi] - totals[lo])
    decreases hi - lo
  {
    if lo < hi {
      NetPrunedTelescopes(fs, totals, lo, hi - 1);
      NetPrunedStep(fs, lo, hi);
      SumTelescopes(NetPruned(fs[lo..hi - 1]), fs[hi - 1].prunedDelta, totals[lo], totals[hi - 1], totals[hi]);
    } else {
      assert fs[lo..hi] == [];
    }
  }

  lemma FlagsFollowTotals(rs: seq<Report>, totals: seq<int>)
    requires rs != [] && |totals| == |rs| && forall i :: 0 <= i < |rs| ==> totals[i] == rs[i].totalPruned
    ensures FollowTotals(AllFlags(DeltasOf(rs)), totals)
  {
    var fs := AllFlags(DeltasOf(rs));
    forall i | 0 <= i < |fs|
      ensures fs[i].prunedDelta == Wrap64(totals[i + 1] - totals[i])
    {
      FlagsAt(rs, i);
      SignedDifferenceExactly(rs[i + 1].totalPruned, rs[i].totalPruned);
    }
  }

  lemma TrendOfTotals(ds: seq<Delta>, totals: seq<int>, n: nat, change: int)
    requires n < |ds| && FollowTotals(AllFlags(ds), totals)
    requires change == totals[n + 1] - totals[WindowStart(n, TREND_WINDOW)]
    ensures TrendAt(ds, n).netPruned == Wrap64(change)
  {
    NetPrunedTelescopes(AllFlags(ds), totals, WindowStart(n, TREND_WINDOW), n + 1);
  }

  function TotalsOf(rs: seq<Report>): (totals: seq<int>)
    ensures |totals| == |rs| && forall i :: 0 <= i < |rs| ==> totals[i] == rs[i].totalPruned
  {
    if rs == [] then [] else TotalsOf(rs[..|rs| - 1]) + [rs[|rs| - 1].totalPruned]
  }

  /** So every trend record reports the change of the pruning total over its window, wrapped
      once; it is the true change exactly when that fits in 64 bits. */
  lemma TrendReportsTotals(rs: seq<Report>, n: nat)
    requires n < |DeltasOf(rs)|
    ensures var change := rs[n + 1].totalPruned - rs[WindowStart(n, TREND_WINDOW)].totalPruned;
      && TrendAt(DeltasOf(rs), n).netPruned == Wrap64(change)
      && (TrendAt(DeltasOf(rs), n).netPruned == change <==> -I64_BOUND <= change < I64_BOUND)
  {
    var change := rs[n + 1].totalPruned - rs[WindowStart(n, TREND_WINDOW)].totalPruned;
    FlagsFollowTotals(rs, TotalsOf(rs));
    TrendOfTotals(DeltasOf(rs), TotalsOf(rs), n, change);
  }

  // ---------------------------------------------------------------- the bound is attained

  /** Counting by index, for windows of known position. */
  function CountRange(fs: seq<Flags>, lo: nat, hi: nat, worse: bool): nat
    requires lo <= hi <= |fs|
    decreases hi
  {
    if lo == hi then 0 else CountRange(fs, lo, hi - 1, worse) + (if Moves(fs[hi - 1], worse) then 1 else 0)
  }

  lemma {:induction false} CountOfRange(fs: seq<Flags>, lo: nat, hi: nat, worse: bool)
    requires lo <= hi <= |fs|
    ensures Count(fs[lo..hi], worse) == CountRange(fs, lo, hi, worse)
    decreases hi
  {
    if lo < hi {
      CountOfRange(fs, lo, hi - 1, worse);
      assert fs[lo..hi][..hi - lo - 1] == fs[lo..hi - 1];
    }
  }

  /** Four moves one way, at comparisons 0, 2, 3 and 4, make six one-sided trends in a row. */
  lemma SixInARow(ds: seq<Delta>, worse: bool)
    requires |ds| == 6
    requires forall i :: 0 <= i < 6 ==> !Moves(FlagsOf(ds[i]), !worse)
    requires forall i :: 0 <= i < 6 ==> (Moves(FlagsOf(ds[i]), worse) <==> i != 1 && i != 5)
    ensures forall n :: 0 <= n < 6 ==> TrendIs(ds, worse, n)
  {
    var fs := AllFlags(ds);
    forall n | 0 <= n < 6
      ensures TrendIs(ds, worse, n)
    {
      var s := WindowStart(n, TREND_WINDOW);
      CountOfRange(fs, s, n + 1, worse);
      CountOfRange(fs, s, n + 1, !worse);
      NoMoves(fs, s, n + 1, !worse);
      FourMoves(fs, worse);
    }
  }

  /** Four moves in a row on full windows make three one-sided trends past comparison six. */
  lemma ThreePastSix(ds: seq<Delta>, worse: bool)
    requires |ds| == 9
    requires forall i :: 0 <= i < 9 ==> !Moves(FlagsOf(ds[i]), !worse)
    requires forall i :: 0 <= i < 9 ==> (Moves(FlagsOf(ds[i]), worse) <==> 4 <= i <= 7)
    ensures forall n :: 6 <= n < 9 ==> TrendIs(ds, worse, n)
  {
    var fs := AllFlags(ds);
    forall n | 6 <= n < 9
      ensures TrendIs(ds, worse, n)
    {
      CountOfRange(fs, n - 3, n + 1, worse);
      CountOfRange(fs, n - 3, n + 1, !worse);
      NoMoves(fs, n - 3, n + 1, !worse);
      LateMoves(fs, n, worse);
    }
  }

  lemma LateMoves(fs: seq<Flags>, n: nat, worse: bool)
    requires |fs| == 9 && 6 <= n < 9 && forall i :: 0 <= i < 9 ==> (Moves(fs[i], worse) <==> 4 <= i <= 7)
    ensures CountRange(fs, n - 3, n + 1, worse) >= 3
  {
    assert CountRange(fs, n - 3, n - 3, worse) == 0;
    assert CountRange(fs, n - 3, n - 2, worse) == (if n == 6 then 0 else 1);
    assert CountRange(fs, n - 3, n - 1, worse) == (if n == 6 then 1 else 2);
    assert CountRange(fs, n - 3, n, worse) == (if n == 6 then 2 else 3);
  }

  /** Three improvements and a setback on a full window. */
  lemma ThreeThenBack(ds: seq<Delta>)
    requires |ds| == 4
    requires forall i, worse :: 0 <= i < 4 ==> (Moves(FlagsOf(ds[i]), worse) <==> (worse <==> i == 3))
    ensures TrendAt(ds, 3).improvements == 3 && TrendAt(ds, 3).trend == Volatile
  {
    var fs := AllFlags(ds);
    CountOfRange(fs, 0, 4, true);
    CountOfRange(fs, 0, 4, false);
    FourFlags(fs, true);
    FourFlags(fs, false);
  }

  /** A single setback on a full window. */
  lemma OneSetback(ds: seq<Delta>)
    requires |ds| == 4
    requires forall i, worse :: 0 <= i < 4 ==> (Moves(FlagsOf(ds[i]), worse) <==> (worse && i == 2))
    ensures TrendAt(ds, 3).trend == Steady
  {
    var fs := AllFlags(ds);
    CountOfRange(fs, 0, 4, true);
    CountOfRange(fs, 0, 4, false);
    FourFlags(fs, true);
    FourFlags(fs, false);
  }

  /** A single move on a window of one. */
  lemma OneMove(ds: seq<Delta>, worse: bool)
    requires |ds| == 1 && Moves(FlagsOf(ds[0]), worse) && !Moves(FlagsOf(ds[0]), !worse)
    ensures TrendIs(ds, worse, 0)
  {
    var fs := AllFlags(ds);
    CountOfRange(fs, 0, 1, worse);
    CountOfRange(fs, 0, 1, !worse);
    NoMoves(fs, 0, 1, !worse);
  }

  function One(b: bool): nat {
    if b then 1 else 0
  }

  lemma FourFlags(fs: seq<Flags>, worse: bool)
    requires |fs| == 4
    ensures CountRange(fs, 0, 4, worse)
         == One(Moves(fs[0], worse)) + One(Moves(fs[1], worse)) + One(Moves(fs[2], worse)) + One(Moves(fs[3], worse))
  {
    assert CountRange(fs, 0, 0, worse) == 0;
    assert CountRange(fs, 0, 1, worse) == One(Moves(fs[0], worse));
    assert CountRange(fs, 0, 2, worse) == One(Moves(fs[0], worse)) + One(Moves(fs[1], worse));
  }

  lemma {:induction false} NoMoves(fs: seq<Flags>, lo: nat, hi: nat, worse: bool)
    requires lo <= hi <= |fs| && forall i :: lo <= i < hi ==> !Moves(fs[i], worse)
    ensures CountRange(fs, lo, hi, worse) == 0
    decreases hi
  {
    if lo < hi {
      NoMoves(fs, lo, hi - 1, worse);
    }
  }

  lemma FourMoves(fs: seq<Flags>, worse: bool)
    requires |fs| == 6 && forall i :: 0 <= i < 6 ==> (Moves(fs[i], worse) <==> i != 1 && i != 5)
    ensures CountRange(fs, 0, 1, worse) == 1 && CountRange(fs, 0, 2, worse) == 1
    ensures CountRange(fs, 0, 3, worse) == 2 && CountRange(fs, 0, 4, worse) == 3
    ensures CountRange(fs, 1, 5, worse) == 3 && CountRange(fs, 2, 6, worse) == 3
  {
    assert CountRange(fs, 0, 0, worse) == 0;
    assert CountRange(fs, 1, 2, worse) == 0 && CountRange(fs, 1, 3, worse) == 1;
    assert CountRange(fs, 2, 3, worse) == 1 && CountRange(fs, 2, 4, worse) == 2;
  }
}
