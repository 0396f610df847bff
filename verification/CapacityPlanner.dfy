/** Linear projection of the epochs left until pruning reaches the capacity ceiling. */
module CapacityPlanner {
  import opened Wrappers
  import opened Bytes
  import opened Arithmetic
  import opened HashChain
  import opened MomentumTracker
  import opened EpochReport
  import opened EpochComparator

  const CAPACITY_WINDOW: nat := 4
  const CAPACITY_CEILING: nat := 10000

  /** The sentinel for "no foreseeable risk". */
  const NO_RISK: U32 := 0xFFFF_FFFF

  datatype Projection = Projection(
    epoch: U64, currentTotal: U64, meanDelta: int, windowLen: nat, epochsToCeiling: U32, atCapacity: bool)

  function Totals(rs: seq<Report>): (ts: seq<U64>)
    ensures |ts| == |rs|
  {
    seq(|rs|, i requires 0 <= i < |rs| => rs[i].totalPruned)
  }

  /** The mean change per epoch over a window, truncated toward zero. */
  function MeanDelta(w: seq<U64>): int
    requires w != []
  {
    if |w| < 2 then 0 else TruncatingDiv(SignedDifference(w[|w| - 1], w[0]), |w| - 1)
  }

  function EpochsLeft(current: U64, meanDelta: int): U32 {
    if current >= CAPACITY_CEILING then 0
    else if meanDelta <= 0 then NO_RISK
    else
      var steps := (CAPACITY_CEILING - current) / meanDelta;
      if steps < NO_RISK then steps else NO_RISK
  }

  function ProjectionOf(epoch: U64, w: seq<U64>): Projection
    requires w != []
  {
    var current := w[|w| - 1];
    Projection(epoch, current, MeanDelta(w), |w|, EpochsLeft(current, MeanDelta(w)), current >= CAPACITY_CEILING)
  }

  /** The pruning totals in the window that ends at report `n`. */
  function WindowAt(rs: seq<Report>, n: nat): (w: seq<U64>)
    requires n < |rs|
    ensures |w| == n + 1 - WindowStart(n, CAPACITY_WINDOW)
  {
    Totals(rs)[WindowStart(n, CAPACITY_WINDOW)..n + 1]
  }

  function ProjectionAt(rs: seq<Report>, n: nat): Projection
    requires n < |rs|
  {
    ProjectionOf(rs[n].epoch, WindowAt(rs, n))
  }

  function ProjectionBody(p: Projection): ByteString {
    Be8(p.epoch) + Be8(p.currentTotal) + SignedBigEndian(p.meanDelta, 8) + BigEndian(p.windowLen, 4)
    + Be4(p.epochsToCeiling) + [Flag(p.atCapacity)]
  }

  /** The numbers fit their encodings. */
  predicate ProjectionFits(p: Projection) {
    -I64_BOUND <= p.meanDelta < I64_BOUND && p.windowLen < U32_BOUND
  }

  /** The encoding determines every field of such a projection. */
  lemma ProjectionBodyInjective(p: Projection, q: Projection)
    requires ProjectionFits(p) && ProjectionFits(q) && ProjectionBody(p) == ProjectionBody(q)
    ensures p == q
  {
    var p1, q1 := Be8(p.epoch) + Be8(p.currentTotal), Be8(q.epoch) + Be8(q.currentTotal);
    var p2, q2 := p1 + SignedBigEndian(p.meanDelta, 8), q1 + SignedBigEndian(q.meanDelta, 8);
    var p3, q3 := p2 + BigEndian(p.windowLen, 4), q2 + BigEndian(q.windowLen, 4);
    SplitEqual(p3 + Be4(p.epochsToCeiling), q3 + Be4(q.epochsToCeiling), [Flag(p.atCapacity)], [Flag(q.atCapacity)]);
    SplitEqual(p3, q3, Be4(p.epochsToCeiling), Be4(q.epochsToCeiling));
    SplitEqual(p2, q2, BigEndian(p.windowLen, 4), BigEndian(q.windowLen, 4));
    SplitEqual(p1, q1, SignedBigEndian(p.meanDelta, 8), SignedBigEndian(q.meanDelta, 8));
    SplitEqual(Be8(p.epoch), Be8(q.epoch), Be8(p.currentTotal), Be8(q.currentTotal));
    Be8Injective(p.epoch, q.epoch);
    Be8Injective(p.currentTotal, q.currentTotal);
    Signed8Injective(p.meanDelta, q.meanDelta);
    Be4Injective(p.windowLen, q.windowLen);
    Be4Injective(p.epochsToCeiling, q.epochsToCeiling);
    OneByte(Flag(p.atCapacity), Flag(q.atCapacity));
  }

  /** The mean of a window is no larger than the change over it. */
  lemma ProjectionOfWindowFits(epoch: U64, w: seq<U64>)
    requires 1 <= |w| <= CAPACITY_WINDOW
    ensures ProjectionFits(ProjectionOf(epoch, w))
  {
    if |w| >= 2 {
      TruncatingDivShrinks(SignedDifference(w[|w| - 1], w[0]), |w| - 1);
    }
  }

  /** The projections of a history of reports. */
  function ProjectionsOf(rs: seq<Report>): (ps: seq<Projection>)
    ensures |ps| == |rs|
  {
    seq(|rs|, i requires 0 <= i < |rs| => ProjectionAt(rs, i))
  }

  /** One report more adds one projection to the chain. */
  lemma ProjectionsGrow(sha: Hash, rs: seq<Report>, r: Report)
    ensures var chain := ChainOf(sha, ProjectionBody, ProjectionsOf(rs));
      ChainOf(sha, ProjectionBody, ProjectionsOf(rs + [r]))
      == chain + [Next(sha, ProjectionBody, chain, ProjectionAt(rs + [r], |rs|))]
  {
    forall i | 0 <= i < |rs|
      ensures ProjectionAt(rs + [r], i) == ProjectionAt(rs, i)
    {
      assert WindowAt(rs + [r], i) == WindowAt(rs, i);
    }
    assert ProjectionsOf(rs + [r]) == ProjectionsOf(rs) + [ProjectionAt(rs + [r], |rs|)];
    ChainGrows(sha, ProjectionBody, ProjectionsOf(rs), ProjectionAt(rs + [r], |rs|));
  }

  /** The window of the totals seen so far. */
  function LastWindow(rs: seq<Report>): seq<U64> {
    if rs == [] then [] else WindowAt(rs, |rs| - 1)
  }

  /** Dropping the oldest entry of a full window and adding the newest total gives the next
      window. */
  lemma TotalsShift(rs: seq<Report>, r: Report)
    ensures var w := LastWindow(rs);
      LastWindow(rs + [r]) == (if |w| == CAPACITY_WINDOW then w[1..] else w) + [r.totalPruned]
  {
    assert Totals(rs + [r]) == Totals(rs) + [r.totalPruned];
  }

  class CapacityPlannerLog {
    const sha: Hash
    var projections: seq<Chained<Projection>>
    var window: seq<U64>
    ghost var seen: seq<Report>

    ghost predicate Valid()
      reads this
    {
      projections == ChainOf(sha, ProjectionBody, ProjectionsOf(seen)) && window == LastWindow(seen)
    }

    constructor (sha: Hash)
      ensures this.sha == sha && Valid() && seen == [] && projections == []
    {
      this.sha := sha;
      projections := [];
      window := [];
      seen := [];
    }

    method Append(report: Report) returns (p: Chained<Projection>)
      requires Valid()
      modifies this
      ensures Valid()
      ensures seen == old(seen) + [report] && projections == old(projections) + [p]
      ensures p.content == ProjectionAt(seen, |seen| - 1)
    {
      ProjectionsGrow(sha, seen, report);
      var content := Project(report);
      p := Next(sha, ProjectionBody, projections, content);
      projections := projections + [p];
      seen := seen + [report];
    }

    /** Moves the window on by one report and extrapolates from it. */
    method Project(report: Report) returns (p: Projection)
      requires window == LastWindow(seen)
      modifies this`window
      ensures window == LastWindow(seen + [report]) && p == ProjectionAt(seen + [report], |seen|)
    {
      TotalsShift(seen, report);
      if |window| == CAPACITY_WINDOW {
        window := window[1..];
      }
      window := window + [report.totalPruned];
      var currentTotal := report.totalPruned;
      var meanDelta := 0;
      if |window| >= 2 {
        meanDelta := TruncatingDiv(SignedDifference(window[|window| - 1], window[0]), |window| - 1);
      }
      var atCapacity := currentTotal >= CAPACITY_CEILING;
      p := Projection(report.epoch, currentTotal, meanDelta, |window|, EpochsLeft(currentTotal, meanDelta), atCapacity);
    }

    method VerifyChain() returns (valid: bool, broken: Option<nat>)
      ensures valid <==> LogHolds(sha, ProjectionBody, projections)
      ensures valid ==> broken == None
      ensures !valid ==> broken.Some? && FirstBroken(sha, Genesis(), LinksOf(ProjectionBody, projections), broken.value)
    {
      valid, broken := VerifyLog(sha, ProjectionBody, projections);
    }
  }

  /** What a projection promises: with growth `d` per epoch, capacity is not exceeded for `k`
      more epochs and is exceeded after one further; the 32-bit cap never takes effect. */
  lemma ProjectionBrackets(current: U64, d: int)
    requires d > 0
    ensures var k := EpochsLeft(current, d);
      && k <= CAPACITY_CEILING
      && (current < CAPACITY_CEILING ==> current + k * d <= CAPACITY_CEILING < current + (k + 1) * d)
      && (current >= CAPACITY_CEILING ==> k == 0)
  {
    if current < CAPACITY_CEILING {
      var left := CAPACITY_CEILING - current;
      QuotientBounds(left, d);
      Quotient(left, d, CAPACITY_CEILING + 1);
      assert (CAPACITY_CEILING + 1) * d >= CAPACITY_CEILING + 1;
    }
  }

  /** The sentinel appears exactly when there is room and no growth. */
  lemma NoRiskExactly(current: U64, d: int)
    ensures EpochsLeft(current, d) == NO_RISK <==> current < CAPACITY_CEILING && d <= 0
  {
    if d > 0 {
      ProjectionBrackets(current, d);
    }
  }

  /** The steps of the description in their order. */
  function DescribedEpochsLeft(current: U64, meanDelta: int): nat {
    if meanDelta <= 0 then NO_RISK
    else if current >= CAPACITY_CEILING then 0
    else
      var steps := (CAPACITY_CEILING - current) / meanDelta;
      if steps < NO_RISK then steps else NO_RISK
  }

  /** The description looks at the growth before the capacity: without growth there is no risk.
      The code meets that except at capacity without growth, where it projects 0. */
  lemma EpochsLeftAsDescribed(current: U64, d: int)
    ensures EpochsLeft(current, d) == DescribedEpochsLeft(current, d) <==> !(current >= CAPACITY_CEILING && d <= 0)
    ensures EpochsLeft(CAPACITY_CEILING, 0) == 0
  {
  }

  /** The mean over a window of constant growth or decline is that growth, for windows of any
      length, exactly when the change over the window fits in 64 bits. */
  lemma MeanOfConstantGrowth(w: seq<U64>, d: int)
    requires |w| >= 2 && forall i :: 0 <= i < |w| - 1 ==> w[i + 1] == w[i] + d
    ensures MeanDelta(w) == d <==> -I64_BOUND <= w[|w| - 1] - w[0] < I64_BOUND
  {
    var steps := |w| - 1;
    GrowthAccumulates(w, steps, d);
    SignedDifferenceExactly(w[steps], w[0]);
    var change := w[steps] as int - w[0] as int;
    assert change == steps * d;
    if Wrap64(change) == change {
      MeanOfSteps(steps, d);
    } else {
      SignOfMean(steps, d, change);
    }
  }

  /** The mean of `steps` equal changes. */
  lemma MeanOfSteps(steps: nat, d: int)
    requires steps > 0
    ensures TruncatingDiv(steps * d, steps) == d
  {
    if d >= 0 {
      assert steps * d == d * steps >= 0;
      QuotientExactly(d * steps, steps, d);
    } else {
      var e := -d;
      assert steps * d == -(e * steps) && e * steps > 0;
      QuotientExactly(e * steps, steps, e);
    }
  }

  /** A change that wrapped has the wrong sign, and so has its mean. */
  lemma SignOfMean(steps: nat, d: int, change: int)
    requires steps > 0 && change == steps * d && -2 * I64_BOUND < change < 2 * I64_BOUND
    requires Wrap64(change) != change
    ensures TruncatingDiv(Wrap64(change), steps) != d
  {
    SignOfProduct(steps, d);
    if change >= 0 {
      assert Wrap64(change) == change - 2 * I64_BOUND;
    } else {
      assert Wrap64(change) == change + 2 * I64_BOUND;
    }
  }

  lemma SignOfProduct(steps: nat, d: int)
    requires steps > 0
    ensures steps * d > 0 <==> d > 0
    ensures steps * d < 0 <==> d < 0
  {
  }

  lemma {:induction false} GrowthAccumulates(w: seq<U64>, n: nat, d: int)
    requires n < |w| && forall i :: 0 <= i < |w| - 1 ==> w[i + 1] == w[i] + d
    ensures w[n] == w[0] + n * d
  {
    if n > 0 {
      GrowthAccumulates(w, n - 1, d);
      assert n * d == (n - 1) * d + d;
    }
  }

  /** Growing by `d` once uses up exactly one of the projected epochs. */
  lemma OneEpochCloser(current: U64, d: nat)
    requires d > 0 && current + d < U64_BOUND && EpochsLeft(current, d) > 0
    ensures current < CAPACITY_CEILING && EpochsLeft(current + d, d) == EpochsLeft(current, d) - 1
  {
    ProjectionBrackets(current, d);
    var k := EpochsLeft(current, d);
    if current + d < CAPACITY_CEILING {
      assert (k - 1) * d == k * d - d && (k + 1) * d == k * d + d;
      QuotientExactly(CAPACITY_CEILING - (current + d), d, k - 1);
    } else {
      Scale(2, k, d);
    }
  }

  /** Under constant growth a positive projection counts down by exactly one per epoch. */
  lemma ProjectionCountsDown(rs: seq<Report>, n: nat, d: nat)
    requires 1 <= n && n + 1 < |rs| && d > 0
    requires forall i :: WindowStart(n, CAPACITY_WINDOW) <= i <= n ==> rs[i + 1].totalPruned == rs[i].totalPruned + d
    requires ProjectionAt(rs, n).epochsToCeiling > 0
    ensures ProjectionAt(rs, n + 1).epochsToCeiling == ProjectionAt(rs, n).epochsToCeiling - 1
    ensures !ProjectionAt(rs, n).atCapacity
  {
    var current := rs[n].totalPruned;
    RoomLeft(rs, n);
    assert rs[n - 1 + 1].totalPruned == rs[n - 1].totalPruned + d;
    assert d <= current && rs[n + 1].totalPruned == current + d;
    WindowGrows(rs, n, d);
    WindowGrows(rs, n + 1, d);
    OneEpochCloser(current, d);
  }

  lemma RoomLeft(rs: seq<Report>, n: nat)
    requires n < |rs|
    ensures ProjectionAt(rs, n).epochsToCeiling > 0 ==> rs[n].totalPruned < CAPACITY_CEILING
  {
  }

  lemma WindowSteps(rs: seq<Report>, n: nat, d: nat)
    requires n < |rs|
    requires forall i :: WindowStart(n, CAPACITY_WINDOW) <= i < n ==> rs[i + 1].totalPruned == rs[i].totalPruned + d
    ensures var w := WindowAt(rs, n);
      w[|w| - 1] == rs[n].totalPruned && forall i :: 0 <= i < |w| - 1 ==> w[i + 1] == w[i] + d
  {
    var w, s := WindowAt(rs, n), WindowStart(n, CAPACITY_WINDOW);
    forall i | 0 <= i < |w| - 1
      ensures w[i + 1] == w[i] + d
    {
      assert rs[s + i + 1].totalPruned == rs[s + i].totalPruned + d;
    }
  }

  /** The mean over a window that grows steadily to a total within the signed range. */
  lemma WindowGrows(rs: seq<Report>, n: nat, d: nat)
    requires 1 <= n < |rs| && rs[n].totalPruned < I64_BOUND
    requires forall i :: WindowStart(n, CAPACITY_WINDOW) <= i < n ==> rs[i + 1].totalPruned == rs[i].totalPruned + d
    ensures MeanDelta(WindowAt(rs, n)) == d
  {
    WindowSteps(rs, n, d);
    SteadyWindow(WindowAt(rs, n), d);
  }

  lemma SteadyWindow(w: seq<U64>, d: nat)
    requires |w| >= 2 && w[|w| - 1] < I64_BOUND && forall i :: 0 <= i < |w| - 1 ==> w[i + 1] == w[i] + d
    ensures MeanDelta(w) == d
  {
    GrowthAccumulates(w, |w| - 1, d);
    MeanOfConstantGrowth(w, d);
  }
}
