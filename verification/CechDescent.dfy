/** Coherence defects of pairs, triples and quadruples of model outputs, over the reals. */
module CechDescent {

  type Vector = seq<real>

  // ---------------------------------------------------------------- index tuples

  /** All extensions of `prefix` by `k` increasing indices from `lo` up, in the order in which
      nested loops visit them. */
  function Extensions(prefix: seq<int>, lo: nat, n: nat, k: nat): seq<seq<int>>
    requires lo <= n
    decreases n - lo, k
  {
    if k == 0 then [prefix]
    else if lo == n then []
    else Extensions(prefix + [lo], lo + 1, n, k - 1) + Extensions(prefix, lo + 1, n, k)
  }

  function Choose(n: nat, k: nat): nat {
    if k == 0 then 1 else if n == 0 then 0 else Choose(n - 1, k - 1) + Choose(n - 1, k)
  }

  lemma {:induction false} ExtensionsCount(prefix: seq<int>, lo: nat, n: nat, k: nat)
    requires lo <= n
    ensures |Extensions(prefix, lo, n, k)| == Choose(n - lo, k)
    decreases n - lo, k
  {
    if k > 0 && lo < n {
      ExtensionsCount(prefix + [lo], lo + 1, n, k - 1);
      ExtensionsCount(prefix, lo + 1, n, k);
    }
  }

  /** The binomial coefficients in closed form. */
  lemma {:induction false} ChooseClosedForm(n: nat)
    ensures Choose(n, 1) == n && 2 * Choose(n, 2) == n * (n - 1)
    ensures 6 * Choose(n, 3) == n * (n - 1) * (n - 2)
    ensures 24 * Choose(n, 4) == n * (n - 1) * (n - 2) * (n - 3)
  {
    if n > 0 {
      var m := n - 1;
      ChooseClosedForm(m);
      assert Choose(n, 1) == Choose(m, 0) + Choose(m, 1) && Choose(n, 2) == Choose(m, 1) + Choose(m, 2);
      assert Choose(n, 3) == Choose(m, 2) + Choose(m, 3) && Choose(n, 4) == Choose(m, 3) + Choose(m, 4);
      ProductsStep(m);
    }
  }

  lemma ProductsStep(m: int)
    ensures (m + 1) * m == 2 * m + m * (m - 1)
    ensures (m + 1) * m * (m - 1) == 3 * (m * (m - 1)) + m * (m - 1) * (m - 2)
    ensures (m + 1) * m * (m - 1) * (m - 2) == 4 * (m * (m - 1) * (m - 2)) + m * (m - 1) * (m - 2) * (m - 3)
  {
    var p := m * (m - 1);
    var q := p * (m - 2);
    FactorsSwap(m + 1, m, m - 1);
    NextFactor(m, p, 2);
    FactorsSwap(m + 1, p, m - 2);
    NextFactor(m, q, 3);
  }

  lemma FactorsSwap(a: int, b: int, c: int)
    ensures a * b * c == a * (b * c)
  {
  }

  lemma NextFactor(m: int, p: int, k: int)
    ensures (m + 1) * p == (k + 1) * p + p * (m - k)
  {
  }

  predicate Increasing(t: seq<int>, n: nat) {
    && (forall i, j :: 0 <= i < j < |t| ==> t[i] < t[j])
    && (forall i :: 0 <= i < |t| ==> 0 <= t[i] < n)
  }

  /** `t` extends `prefix` by `k` increasing indices between `lo` and `n`. */
  predicate Extends(t: seq<int>, prefix: seq<int>, lo: nat, n: nat, k: nat) {
    |t| == |prefix| + k && Increasing(t, n) && t[..|prefix|] == prefix && (k > 0 ==> t[|prefix|] >= lo)
  }

  /** Either the next index is `lo` or it is larger. */
  lemma ExtendsSplits(t: seq<int>, prefix: seq<int>, lo: nat, n: nat, k: nat)
    requires lo < n && k > 0 && Increasing(prefix, lo)
    ensures Extends(t, prefix, lo, n, k) <==>
      Extends(t, prefix + [lo], lo + 1, n, k - 1) || Extends(t, prefix, lo + 1, n, k)
  {
    var p := |prefix|;
    if |t| == p + k {
      assert t[..p + 1] == t[..p] + [t[p]];
      if t[..p + 1] == prefix + [lo] {
        assert t[p] == (prefix + [lo])[p] && t[..p] == (prefix + [lo])[..p];
      }
    }
  }

  lemma VisitSplits(prefix: seq<int>, lo: nat, n: nat, k: nat, t: seq<int>)
    requires lo < n && k > 0
    ensures t in Extensions(prefix, lo, n, k) <==>
      t in Extensions(prefix + [lo], lo + 1, n, k - 1) || t in Extensions(prefix, lo + 1, n, k)
  {
    var taken, skipped := Extensions(prefix + [lo], lo + 1, n, k - 1), Extensions(prefix, lo + 1, n, k);
    assert Extensions(prefix, lo, n, k) == taken + skipped;
  }

  lemma IncreasingGrows(prefix: seq<int>, lo: nat)
    requires Increasing(prefix, lo)
    ensures Increasing(prefix + [lo], lo + 1) && Increasing(prefix, lo + 1)
  {
  }

  /** `t` is visited exactly if it should be. */
  predicate VisitedExactly(prefix: seq<int>, lo: nat, n: nat, k: nat, t: seq<int>)
    requires lo <= n
  {
    t in Extensions(prefix, lo, n, k) <==> Extends(t, prefix, lo, n, k)
  }

  lemma VisitStep(prefix: seq<int>, lo: nat, n: nat, k: nat, t: seq<int>)
    requires lo < n && k > 0 && Increasing(prefix, lo)
    requires VisitedExactly(prefix + [lo], lo + 1, n, k - 1, t) && VisitedExactly(prefix, lo + 1, n, k, t)
    ensures VisitedExactly(prefix, lo, n, k, t)
  {
    VisitSplits(prefix, lo, n, k, t);
    ExtendsSplits(t, prefix, lo, n, k);
  }

  /** Every increasing extension is visited and nothing else is. */
  lemma {:induction false} ExtensionsExactly(prefix: seq<int>, lo: nat, n: nat, k: nat, t: seq<int>)
    requires lo <= n && Increasing(prefix, lo)
    ensures VisitedExactly(prefix, lo, n, k, t)
    decreases n - lo, k
  {
    if k == 0 {
      PrefixAlone(prefix, lo, n, t);
    } else if lo < n {
      IncreasingGrows(prefix, lo);
      ExtensionsExactly(prefix + [lo], lo + 1, n, k - 1, t);
      ExtensionsExactly(prefix, lo + 1, n, k, t);
      VisitStep(prefix, lo, n, k, t);
    } else {
      NothingExtends(t, prefix, lo, n, k);
    }
  }

  lemma PrefixAlone(prefix: seq<int>, lo: nat, n: nat, t: seq<int>)
    requires lo <= n && Increasing(prefix, lo)
    ensures VisitedExactly(prefix, lo, n, 0, t)
  {
    assert |t| == |prefix| ==> t[..|prefix|] == t;
  }

  lemma NothingExtends(t: seq<int>, prefix: seq<int>, lo: nat, n: nat, k: nat)
    requires lo == n && k > 0
    ensures VisitedExactly(prefix, lo, n, k, t)
  {
  }

  // ---------------------------------------------------------------- defects

  function Abs(x: real): (r: real)
    ensures r >= 0.0
  {
    if x < 0.0 then -x else x
  }

  function Min(a: nat, b: nat): nat {
    if a < b then a else b
  }

  /** The divisor of the means: the length of the first model, at least one. */
  function Length(a: Vector): (r: real)
    ensures r >= 1.0
  {
    if |a| == 0 then 1.0 else |a| as real
  }

  /** Zipping stops at the shorter vector. */
  function Difference(a: Vector, b: Vector): Vector {
    seq(Min(|a|, |b|), i requires 0 <= i < Min(|a|, |b|) => a[i] - b[i])
  }

  /** How far a detour over `b` exceeds the direct way from `a` to `c`. */
  function Detour(a: real, b: real, c: real): (r: real)
    ensures r >= 0.0
  {
    Abs(Abs(a - b) + Abs(b - c) - Abs(a - c))
  }

  /** By the triangle inequality the outer absolute value changes nothing, and a detour is free
      exactly when `b` lies between the other two. */
  lemma DetourExactly(a: real, b: real, c: real)
    ensures Detour(a, b, c) == Abs(a - b) + Abs(b - c) - Abs(a - c)
    ensures Detour(a, b, c) == 0.0 <==> a <= b <= c || c <= b <= a
  {
  }

  function Imbalance(a: real, b: real, c: real, d: real): (r: real)
    ensures r >= 0.0
  {
    Abs(Abs(a - b) - Abs(c - d))
  }

  function DetourSum(a: Vector, b: Vector, c: Vector, m: nat): (r: real)
    requires m <= |a| && m <= |b| && m <= |c|
    ensures r >= 0.0
  {
    if m == 0 then 0.0 else DetourSum(a, b, c, m - 1) + Detour(a[m - 1], b[m - 1], c[m - 1])
  }

  function ImbalanceSum(a: Vector, b: Vector, c: Vector, d: Vector, m: nat): (r: real)
    requires m <= |a| && m <= |b| && m <= |c| && m <= |d|
    ensures r >= 0.0
  {
    if m == 0 then 0.0
    else ImbalanceSum(a, b, c, d, m - 1) + Imbalance(a[m - 1], b[m - 1], c[m - 1], d[m - 1])
  }

  function TripleDefect(a: Vector, b: Vector, c: Vector): (r: real)
    ensures r >= 0.0
  {
    DetourSum(a, b, c, Min(Min(|a|, |b|), |c|)) / Length(a)
  }

  function QuadDefect(a: Vector, b: Vector, c: Vector, d: Vector): (r: real)
    ensures r >= 0.0
  {
    ImbalanceSum(a, b, c, d, Min(Min(Min(|a|, |b|), |c|), |d|)) / Length(a)
  }

  lemma {:induction false} DetourSumZero(a: Vector, b: Vector, c: Vector, m: nat)
    requires m <= |a| && m <= |b| && m <= |c|
    ensures DetourSum(a, b, c, m) == 0.0 <==> forall i :: 0 <= i < m ==> Detour(a[i], b[i], c[i]) == 0.0
  {
    if m > 0 {
      DetourSumZero(a, b, c, m - 1);
    }
  }

  /** A triple coheres exactly when, in every shared coordinate, the middle model lies between
      the outer two. */
  lemma TripleCoheresExactly(a: Vector, b: Vector, c: Vector)
    ensures TripleDefect(a, b, c) == 0.0 <==>
      forall i :: 0 <= i < |a| && i < |b| && i < |c| ==> a[i] <= b[i] <= c[i] || c[i] <= b[i] <= a[i]
  {
    var m := Min(Min(|a|, |b|), |c|);
    DetourSumZero(a, b, c, m);
    QuotientZero(DetourSum(a, b, c, m), Length(a));
    forall i | 0 <= i < m
      ensures Detour(a[i], b[i], c[i]) == 0.0 <==> a[i] <= b[i] <= c[i] || c[i] <= b[i] <= a[i]
    {
      DetourExactly(a[i], b[i], c[i]);
    }
  }

  lemma QuotientZero(x: real, y: real)
    requires y >= 1.0
    ensures x / y == 0.0 <==> x == 0.0
    ensures x >= 0.0 ==> x / y >= 0.0
  {
    if x / y == 0.0 {
      assert x == x / y * y;
    }
  }

  lemma {:induction false} ImbalanceSumZero(a: Vector, b: Vector, c: Vector, d: Vector, m: nat)
    requires m <= |a| && m <= |b| && m <= |c| && m <= |d|
    ensures ImbalanceSum(a, b, c, d, m) == 0.0 <==>
      forall i :: 0 <= i < m ==> Abs(a[i] - b[i]) == Abs(c[i] - d[i])
  {
    if m > 0 {
      ImbalanceSumZero(a, b, c, d, m - 1);
    }
  }

  /** A quadruple coheres exactly when both pairs differ equally in every shared coordinate. */
  lemma QuadCoheresExactly(a: Vector, b: Vector, c: Vector, d: Vector)
    ensures QuadDefect(a, b, c, d) == 0.0 <==>
      forall i :: 0 <= i < |a| && i < |b| && i < |c| && i < |d| ==> Abs(a[i] - b[i]) == Abs(c[i] - d[i])
  {
    var m := Min(Min(Min(|a|, |b|), |c|), |d|);
    ImbalanceSumZero(a, b, c, d, m);
    QuotientZero(ImbalanceSum(a, b, c, d, m), Length(a));
  }

  // ---------------------------------------------------------------- the levels

  /** The model that position `y` of an index tuple names. */
  function At(ms: seq<Vector>, t: seq<int>, y: nat): Vector {
    if y < |t| && 0 <= t[y] < |ms| then ms[t[y]] else []
  }

  function Pairs(ms: seq<Vector>, ts: seq<seq<int>>): (r: seq<Vector>)
    ensures |r| == |ts|
  {
    seq(|ts|, x requires 0 <= x < |ts| => Difference(At(ms, ts[x], 0), At(ms, ts[x], 1)))
  }

  function Triples(ms: seq<Vector>, ts: seq<seq<int>>): (r: seq<real>)
    ensures |r| == |ts|
  {
    seq(|ts|, x requires 0 <= x < |ts| => TripleDefect(At(ms, ts[x], 0), At(ms, ts[x], 1), At(ms, ts[x], 2)))
  }

  function Quads(ms: seq<Vector>, ts: seq<seq<int>>): (r: seq<real>)
    ensures |r| == |ts|
  {
    seq(|ts|, x requires 0 <= x < |ts| =>
      QuadDefect(At(ms, ts[x], 0), At(ms, ts[x], 1), At(ms, ts[x], 2), At(ms, ts[x], 3)))
  }

  lemma PairsGrow(ms: seq<Vector>, ts: seq<seq<int>>, i: nat, j: nat)
    requires i < |ms| && j < |ms|
    ensures Pairs(ms, ts + [[i, j]]) == Pairs(ms, ts) + [Difference(ms[i], ms[j])]
  {
  }

  lemma TriplesGrow(ms: seq<Vector>, ts: seq<seq<int>>, i: nat, j: nat, k: nat)
    requires i < |ms| && j < |ms| && k < |ms|
    ensures Triples(ms, ts + [[i, j, k]]) == Triples(ms, ts) + [TripleDefect(ms[i], ms[j], ms[k])]
  {
  }

  lemma QuadsGrow(ms: seq<Vector>, ts: seq<seq<int>>, i: nat, j: nat, k: nat, l: nat)
    requires i < |ms| && j < |ms| && k < |ms| && l < |ms|
    ensures Quads(ms, ts + [[i, j, k, l]]) == Quads(ms, ts) + [QuadDefect(ms[i], ms[j], ms[k], ms[l])]
  {
  }

  /** `done` has been visited; what is left is the rest of the loop over the index after
      `prefix`, from `lo` on, and then `rest`. */
  ghost predicate Visiting(done: seq<seq<int>>, prefix: seq<int>, lo: nat, n: nat, k: nat,
                           rest: seq<seq<int>>, all: seq<seq<int>>) {
    lo <= n && done + (Extensions(prefix, lo, n, k) + rest) == all
  }

  /** Entering the body of that loop with index `i`: an inner loop starts, with the remainder of
      the outer one after it. */
  lemma EnterBody(done: seq<seq<int>>, prefix: seq<int>, i: nat, n: nat, k: nat,
                  rest: seq<seq<int>>, all: seq<seq<int>>, inner: seq<int>)
    requires Visiting(done, prefix, i, n, k, rest, all) && i < n && k > 0 && inner == prefix + [i]
    ensures Visiting(done, inner, i + 1, n, k - 1, Extensions(prefix, i + 1, n, k) + rest, all)
  {
    assert Extensions(prefix, i, n, k) + rest
        == Extensions(inner, i + 1, n, k - 1) + (Extensions(prefix, i + 1, n, k) + rest);
  }

  /** Leaving the inner loop resumes the outer one at the next index. */
  lemma LeaveBody(done: seq<seq<int>>, inner: seq<int>, n: nat, k: nat, prefix: seq<int>, i: nat,
                  rest: seq<seq<int>>, all: seq<seq<int>>)
    requires i < n && k > 0 && Visiting(done, inner, n, n, k, Extensions(prefix, i + 1, n, k + 1) + rest, all)
    ensures Visiting(done, prefix, i + 1, n, k + 1, rest, all)
  {
  }

  /** The innermost body visits one tuple. */
  lemma VisitOne(done: seq<seq<int>>, prefix: seq<int>, i: nat, n: nat,
                 rest: seq<seq<int>>, all: seq<seq<int>>, tuple: seq<int>)
    requires Visiting(done, prefix, i, n, 1, rest, all) && i < n && tuple == prefix + [i]
    ensures Visiting(done + [tuple], prefix, i + 1, n, 1, rest, all)
  {
    assert Extensions(prefix, i, n, 1) == [tuple] + Extensions(prefix, i + 1, n, 1);
    assert done + ([tuple] + Extensions(prefix, i + 1, n, 1) + rest)
        == done + [tuple] + (Extensions(prefix, i + 1, n, 1) + rest);
  }

  /** Before the outermost loop everything is left to visit. */
  lemma StartVisits(n: nat, k: nat)
    ensures Visiting([], [], 0, n, k, [], Extensions([], 0, n, k))
  {
  }

  /** After it nothing is. */
  lemma EndVisits(done: seq<seq<int>>, n: nat, k: nat, all: seq<seq<int>>)
    requires k > 0 && Visiting(done, [], n, n, k, [], all)
    ensures done == all
  {
  }

  function Sum(s: seq<real>): real {
    if s == [] then 0.0 else Sum(s[..|s| - 1]) + s[|s| - 1]
  }

  predicate AllZero(s: seq<real>) {
    forall x :: 0 <= x < |s| ==> s[x] == 0.0
  }

  /** The mean, zero for an empty list. */
  function Mean(s: seq<real>): real {
    if s == [] then 0.0 else Sum(s) / |s| as real
  }

  lemma MeanOfNonNegative(s: seq<real>)
    requires forall x :: 0 <= x < |s| ==> s[x] >= 0.0
    ensures Mean(s) >= 0.0
    ensures Mean(s) == 0.0 <==> AllZero(s)
  {
    SumOfNonNegative(s);
    if s != [] {
      var total, count := Sum(s), |s| as real;
      QuotientZero(total, count);
    }
  }

  lemma {:induction false} SumOfNonNegative(s: seq<real>)
    requires forall x :: 0 <= x < |s| ==> s[x] >= 0.0
    ensures Sum(s) >= 0.0
    ensures Sum(s) == 0.0 <==> forall x :: 0 <= x < |s| ==> s[x] == 0.0
  {
    if s != [] {
      SumOfNonNegative(s[..|s| - 1]);
    }
  }

  datatype CechDescentState = CechDescentState(
    models: seq<Vector>, level1: seq<Vector>, level2: seq<real>, level3: seq<real>, k3Invariant: real)

  /** Every pair, triple and quadruple of models in increasing order has its entry, and the
      invariant is the mean of the quadruple defects. */
  predicate Describes(s: CechDescentState, ms: seq<Vector>) {
    var n := |ms|;
    && s.models == ms
    && s.level1 == Pairs(ms, Extensions([], 0, n, 2))
    && s.level2 == Triples(ms, Extensions([], 0, n, 3))
    && s.level3 == Quads(ms, Extensions([], 0, n, 4))
    && s.k3Invariant == Mean(s.level3)
  }

  method BuildLevel1(ms: seq<Vector>) returns (level: seq<Vector>)
    ensures level == Pairs(ms, Extensions([], 0, |ms|, 2))
  {
    var n := |ms|;
    level := [];
    ghost var none: seq<seq<int>> := [];
    ghost var done, all := none, Extensions([], 0, n, 2);
    StartVisits(n, 2);
    for i := 0 to n
      invariant level == Pairs(ms, done)
      invariant Visiting(done, [], i, n, 2, none, all)
    {
      ghost var rest1 := Extensions([], i + 1, n, 2) + none;
      EnterBody(done, [], i, n, 2, none, all, [i]);
      level, done := VisitPairsOf(ms, i, level, done, rest1, all);
      LeaveBody(done, [i], n, 1, [], i, none, all);
    }
    EndVisits(done, n, 2, all);
  }

  /** The inner loop of the level of pairs. */
  method VisitPairsOf(ms: seq<Vector>, i: nat, level: seq<Vector>,
                      ghost done: seq<seq<int>>, ghost rest: seq<seq<int>>, ghost all: seq<seq<int>>)
    returns (level': seq<Vector>, ghost done': seq<seq<int>>)
    requires i < |ms| && level == Pairs(ms, done)
    requires Visiting(done, [i], i + 1, |ms|, 1, rest, all)
    ensures level' == Pairs(ms, done') && Visiting(done', [i], |ms|, |ms|, 1, rest, all)
  {
    var n := |ms|;
    level', done' := level, done;
    for j := i + 1 to n
      invariant level' == Pairs(ms, done')
      invariant Visiting(done', [i], j, n, 1, rest, all)
    {
      VisitOne(done', [i], j, n, rest, all, [i, j]);
      PairsGrow(ms, done', i, j);
      level' := level' + [Difference(ms[i], ms[j])];
      done' := done' + [[i, j]];
    }
  }

  method BuildLevel2(ms: seq<Vector>) returns (level: seq<real>)
    ensures level == Triples(ms, Extensions([], 0, |ms|, 3))
  {
    var n := |ms|;
    level := [];
    ghost var none: seq<seq<int>> := [];
    ghost var done, all := none, Extensions([], 0, n, 3);
    StartVisits(n, 3);
    for i := 0 to n
      invariant level == Triples(ms, done)
      invariant Visiting(done, [], i, n, 3, none, all)
    {
      ghost var rest1 := Extensions([], i + 1, n, 3) + none;
      EnterBody(done, [], i, n, 3, none, all, [i]);
      level, done := VisitTriplesFrom(ms, i, level, done, rest1, all);
      LeaveBody(done, [i], n, 2, [], i, none, all);
    }
    EndVisits(done, n, 3, all);
  }

  /** The second loop of the level of triples. */
  method VisitTriplesFrom(ms: seq<Vector>, i: nat, level: seq<real>,
                          ghost done: seq<seq<int>>, ghost rest: seq<seq<int>>, ghost all: seq<seq<int>>)
    returns (level': seq<real>, ghost done': seq<seq<int>>)
    requires i < |ms| && level == Triples(ms, done)
    requires Visiting(done, [i], i + 1, |ms|, 2, rest, all)
    ensures level' == Triples(ms, done') && Visiting(done', [i], |ms|, |ms|, 2, rest, all)
  {
    var n := |ms|;
    level', done' := level, done;
    for j := i + 1 to n
      invariant level' == Triples(ms, done')
      invariant Visiting(done', [i], j, n, 2, rest, all)
    {
      ghost var rest2 := Extensions([i], j + 1, n, 2) + rest;
      EnterBody(done', [i], j, n, 2, rest, all, [i, j]);
      level', done' := VisitTriplesOf(ms, i, j, level', done', rest2, all);
      LeaveBody(done', [i, j], n, 1, [i], j, rest, all);
    }
  }

  /** The innermost loop of the level of triples. */
  method VisitTriplesOf(ms: seq<Vector>, i: nat, j: nat, level: seq<real>,
                        ghost done: seq<seq<int>>, ghost rest: seq<seq<int>>, ghost all: seq<seq<int>>)
    returns (level': seq<real>, ghost done': seq<seq<int>>)
    requires i < j < |ms| && level == Triples(ms, done)
    requires Visiting(done, [i, j], j + 1, |ms|, 1, rest, all)
    ensures level' == Triples(ms, done') && Visiting(done', [i, j], |ms|, |ms|, 1, rest, all)
  {
    var n := |ms|;
    level', done' := level, done;
    for k := j + 1 to n
      invariant level' == Triples(ms, done')
      invariant Visiting(done', [i, j], k, n, 1, rest, all)
    {
      VisitOne(done', [i, j], k, n, rest, all, [i, j, k]);
      TriplesGrow(ms, done', i, j, k);
      level' := level' + [TripleDefect(ms[i], ms[j], ms[k])];
      done' := done' + [[i, j, k]];
    }
  }

  method BuildLevel3(ms: seq<Vector>) returns (level: seq<real>)
    ensures level == Quads(ms, Extensions([], 0, |ms|, 4))
  {
    var n := |ms|;
    level := [];
    ghost var none: seq<seq<int>> := [];
    ghost var done, all := none, Extensions([], 0, n, 4);
    StartVisits(n, 4);
    for i := 0 to n
      invariant level == Quads(ms, done)
      invariant Visiting(done, [], i, n, 4, none, all)
    {
      ghost var rest1 := Extensions([], i + 1, n, 4) + none;
      EnterBody(done, [], i, n, 4, none, all, [i]);
      level, done := VisitQuadsFrom(ms, i, level, done, rest1, all);
      LeaveBody(done, [i], n, 3, [], i, none, all);
    }
    EndVisits(done, n, 4, all);
  }

  /** The second loop of the level of quadruples. */
  method VisitQuadsFrom(ms: seq<Vector>, i: nat, level: seq<real>,
                        ghost done: seq<seq<int>>, ghost rest: seq<seq<int>>, ghost all: seq<seq<int>>)
    returns (level': seq<real>, ghost done': seq<seq<int>>)
    requires i < |ms| && level == Quads(ms, done)
    requires Visiting(done, [i], i + 1, |ms|, 3, rest, all)
    ensures level' == Quads(ms, done') && Visiting(done', [i], |ms|, |ms|, 3, rest, all)
  {
    var n := |ms|;
    level', done' := level, done;
    for j := i + 1 to n
      invariant level' == Quads(ms, done')
      invariant Visiting(done', [i], j, n, 3, rest, all)
    {
      ghost var rest2 := Extensions([i], j + 1, n, 3) + rest;
      EnterBody(done', [i], j, n, 3, rest, all, [i, j]);
      level', done' := VisitQuadsOf(ms, i, j, level', done', rest2, all);
      LeaveBody(done', [i, j], n, 2, [i], j, rest, all);
    }
  }

  /** The third loop. */
  method VisitQuadsOf(ms: seq<Vector>, i: nat, j: nat, level: seq<real>,
                      ghost done: seq<seq<int>>, ghost rest: seq<seq<int>>, ghost all: seq<seq<int>>)
    returns (level': seq<real>, ghost done': seq<seq<int>>)
    requires i < j < |ms| && level == Quads(ms, done)
    requires Visiting(done, [i, j], j + 1, |ms|, 2, rest, all)
    ensures level' == Quads(ms, done') && Visiting(done', [i, j], |ms|, |ms|, 2, rest, all)
  {
    var n := |ms|;
    level', done' := level, done;
    for k := j + 1 to n
      invariant level' == Quads(ms, done')
      invariant Visiting(done', [i, j], k, n, 2, rest, all)
    {
      ghost var rest3 := Extensions([i, j], k + 1, n, 2) + rest;
      EnterBody(done', [i, j], k, n, 2, rest, all, [i, j, k]);
      level', done' := VisitQuadsOfTriple(ms, i, j, k, level', done', rest3, all);
      LeaveBody(done', [i, j, k], n, 1, [i, j], k, rest, all);
    }
  }

  /** The innermost loop. */
  method VisitQuadsOfTriple(ms: seq<Vector>, i: nat, j: nat, k: nat, level: seq<real>,
                            ghost done: seq<seq<int>>, ghost rest: seq<seq<int>>, ghost all: seq<seq<int>>)
    returns (level': seq<real>, ghost done': seq<seq<int>>)
    requires i < j < k < |ms| && level == Quads(ms, done)
    requires Visiting(done, [i, j, k], k + 1, |ms|, 1, rest, all)
    ensures level' == Quads(ms, done') && Visiting(done', [i, j, k], |ms|, |ms|, 1, rest, all)
  {
    var n := |ms|;
    level', done' := level, done;
    for l := k + 1 to n
      invariant level' == Quads(ms, done')
      invariant Visiting(done', [i, j, k], l, n, 1, rest, all)
    {
      VisitOne(done', [i, j, k], l, n, rest, all, [i, j, k, l]);
      QuadsGrow(ms, done', i, j, k, l);
      level' := level' + [QuadDefect(ms[i], ms[j], ms[k], ms[l])];
      done' := done' + [[i, j, k, l]];
    }
  }

  method Build(ms: seq<Vector>) returns (s: CechDescentState)
    ensures Describes(s, ms)
  {
    if |ms| == 0 {
      return CechDescentState([], [], [], [], 0.0);
    }
    var level1 := BuildLevel1(ms);
    var level2 := BuildLevel2(ms);
    var level3 := BuildLevel3(ms);
    var k3 := if level3 == [] then 0.0 else Sum(level3) / |level3| as real;
    s := CechDescentState(ms, level1, level2, level3, k3);
  }

  /** The three levels have n choose 2, 3 and 4 entries. */
  lemma LevelSizes(s: CechDescentState, ms: seq<Vector>)
    requires Describes(s, ms)
    ensures |s.level1| == Choose(|ms|, 2) && |s.level2| == Choose(|ms|, 3) && |s.level3| == Choose(|ms|, 4)
    ensures var n := |ms|;
      2 * |s.level1| == n * (n - 1) && 6 * |s.level2| == n * (n - 1) * (n - 2)
      && 24 * |s.level3| == n * (n - 1) * (n - 2) * (n - 3)
  {
    ChooseClosedForm(|ms|);
    ExtensionsCount([], 0, |ms|, 2);
    ExtensionsCount([], 0, |ms|, 3);
    ExtensionsCount([], 0, |ms|, 4);
  }

  /** Entry `x` of the last level belongs to an increasing quadruple. */
  lemma QuadOfEntry(ms: seq<Vector>, x: nat)
    requires x < |Extensions([], 0, |ms|, 4)|
    ensures var t := Extensions([], 0, |ms|, 4)[x];
      |t| == 4 && 0 <= t[0] < t[1] < t[2] < t[3] < |ms|
      && Quads(ms, Extensions([], 0, |ms|, 4))[x] == QuadDefect(ms[t[0]], ms[t[1]], ms[t[2]], ms[t[3]])
  {
    ExtensionsExactly([], 0, |ms|, 4, Extensions([], 0, |ms|, 4)[x]);
  }

  /** Every increasing quadruple has an entry. */
  lemma EntryOfQuad(ms: seq<Vector>, i: nat, j: nat, k: nat, l: nat) returns (x: nat)
    requires i < j < k < l < |ms|
    ensures x < |Extensions([], 0, |ms|, 4)|
    ensures Quads(ms, Extensions([], 0, |ms|, 4))[x] == QuadDefect(ms[i], ms[j], ms[k], ms[l])
  {
    x := VisitOfQuad(|ms|, i, j, k, l);
  }

  lemma VisitOfQuad(n: nat, i: nat, j: nat, k: nat, l: nat) returns (x: nat)
    requires i < j < k < l < n
    ensures x < |Extensions([], 0, n, 4)| && Extensions([], 0, n, 4)[x] == [i, j, k, l]
  {
    var ts, t := Extensions([], 0, n, 4), [i, j, k, l];
    ExtensionsExactly([], 0, n, 4, t);
    assert Extends(t, [], 0, n, 4);
    assert t in ts;
    x :| 0 <= x < |ts| && ts[x] == t;
  }

  predicate QuadCoheres(ms: seq<Vector>, i: nat, j: nat, k: nat, l: nat)
    requires i < j < k < l < |ms|
  {
    QuadDefect(ms[i], ms[j], ms[k], ms[l]) == 0.0
  }

  predicate AllQuadsCohere(ms: seq<Vector>) {
    forall i: nat, j: nat, k: nat, l: nat :: i < j < k < l < |ms| ==> QuadCoheres(ms, i, j, k, l)
  }

  lemma EntryOfCoherence(ms: seq<Vector>, x: nat)
    requires x < |Extensions([], 0, |ms|, 4)|
    ensures var entry := Quads(ms, Extensions([], 0, |ms|, 4))[x];
      entry >= 0.0 && (AllQuadsCohere(ms) ==> entry == 0.0)
  {
    QuadOfEntry(ms, x);
    var t := Extensions([], 0, |ms|, 4)[x];
    assert AllQuadsCohere(ms) ==> QuadCoheres(ms, t[0], t[1], t[2], t[3]);
  }

  lemma EntriesOfCoherence(ms: seq<Vector>)
    ensures var q := Quads(ms, Extensions([], 0, |ms|, 4));
      && (forall x :: 0 <= x < |q| ==> q[x] >= 0.0)
      && (AllQuadsCohere(ms) ==> AllZero(q))
  {
    var q := Quads(ms, Extensions([], 0, |ms|, 4));
    forall x | 0 <= x < |q|
      ensures q[x] >= 0.0
      ensures AllQuadsCohere(ms) ==> q[x] == 0.0
    {
      EntryOfCoherence(ms, x);
    }
  }

  lemma QuadOfZeroEntries(ms: seq<Vector>, i: nat, j: nat, k: nat, l: nat)
    requires i < j < k < l < |ms| && AllZero(Quads(ms, Extensions([], 0, |ms|, 4)))
    ensures QuadCoheres(ms, i, j, k, l)
  {
    var x := EntryOfQuad(ms, i, j, k, l);
  }

  lemma IncoherentQuad(ms: seq<Vector>) returns (i: nat, j: nat, k: nat, l: nat)
    requires !AllQuadsCohere(ms)
    ensures i < j < k < l < |ms| && !QuadCoheres(ms, i, j, k, l)
  {
    i, j, k, l :| i < j < k < l < |ms| && !QuadCoheres(ms, i, j, k, l);
  }

  lemma CoherenceOfEntries(ms: seq<Vector>)
    requires AllZero(Quads(ms, Extensions([], 0, |ms|, 4)))
    ensures AllQuadsCohere(ms)
  {
    if !AllQuadsCohere(ms) {
      var i, j, k, l := IncoherentQuad(ms);
      QuadOfZeroEntries(ms, i, j, k, l);
    }
  }

  lemma QuadsZeroExactly(ms: seq<Vector>)
    ensures var q := Quads(ms, Extensions([], 0, |ms|, 4));
      && (forall x :: 0 <= x < |q| ==> q[x] >= 0.0)
      && (AllZero(q) <==> AllQuadsCohere(ms))
  {
    EntriesOfCoherence(ms);
    if AllZero(Quads(ms, Extensions([], 0, |ms|, 4))) {
      CoherenceOfEntries(ms);
    }
  }

  /** The routing invariant is never negative, and it is zero exactly when every quadruple of
      models coheres. */
  lemma InvariantExactly(s: CechDescentState, ms: seq<Vector>)
    requires Describes(s, ms)
    ensures s.k3Invariant >= 0.0
    ensures s.k3Invariant == 0.0 <==> AllQuadsCohere(ms)
  {
    QuadsZeroExactly(ms);
    var q := Quads(ms, Extensions([], 0, |ms|, 4));
    assert s.level3 == q;
    MeanOfNonNegative(q);
  }

  lemma EqualQuadsCohere(ms: seq<Vector>)
    requires forall i, j :: 0 <= i < j < |ms| ==> ms[i] == ms[j]
    ensures AllQuadsCohere(ms)
  {
    forall i: nat, j: nat, k: nat, l: nat | i < j < k < l < |ms|
      ensures QuadCoheres(ms, i, j, k, l)
    {
      assert ms[i] == ms[j] && ms[k] == ms[l];
      QuadCoheresExactly(ms[i], ms[j], ms[k], ms[l]);
    }
  }

  lemma TripleOfEqualModels(ms: seq<Vector>, ts: seq<seq<int>>, x: nat)
    requires ts == Extensions([], 0, |ms|, 3) && x < |ts|
    requires forall i, j :: 0 <= i < j < |ms| ==> ms[i] == ms[j]
    ensures Triples(ms, ts)[x] == 0.0
  {
    ExtensionsExactly([], 0, |ms|, 3, ts[x]);
    TripleCoheresExactly(At(ms, ts[x], 0), At(ms, ts[x], 1), At(ms, ts[x], 2));
  }

  /** Identical models cohere completely, at both defect levels. */
  lemma EqualModelsCohere(s: CechDescentState, ms: seq<Vector>)
    requires Describes(s, ms) && forall i, j :: 0 <= i < j < |ms| ==> ms[i] == ms[j]
    ensures s.k3Invariant == 0.0
    ensures forall x :: 0 <= x < |s.level2| ==> s.level2[x] == 0.0
  {
    EqualQuadsCohere(ms);
    InvariantExactly(s, ms);
    forall x | 0 <= x < |s.level2|
      ensures s.level2[x] == 0.0
    {
      TripleOfEqualModels(ms, Extensions([], 0, |ms|, 3), x);
    }
  }
}
