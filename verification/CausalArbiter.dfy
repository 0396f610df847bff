/** The causal confidence arbiter: a memoised depth-first evaluation of a dependency graph
    that stops at the first violation it meets.

    The source marks a node as visited only after all of its dependencies have been evaluated,
    so it can recurse without end on a graph with a cycle. `Memoised` is the source's evaluation
    with a bound on the call depth; `ReturnsExactly` says on which graphs some depth is enough. */
module CausalArbiter {
  import opened Wrappers
  import opened CausalGraph
  import opened CausalEvaluation

  // ---------------------------------------------------------------- evaluation with memory

  /** What a call hands back: its outcome, the memory it leaves, and, in order, every node whose
      body it has evaluated. */
  datatype Memoed = Memoed(outcome: Outcome, visited: map<NodeId, EpistemicState>, expanded: seq<NodeId>)

  /** The source's traversal with a bound on the call depth; `None` when the bound is too small. */
  function Memoised(g: Graph, threshold: real, id: NodeId, visited: map<NodeId, EpistemicState>, depth: nat)
    : Option<Memoed>
    decreases depth, 1, 0
  {
    if depth == 0 then None
    else if id in visited then Some(Memoed(Ok(visited[id]), visited, []))
    else if id !in g then Some(Memoed(Err(MissingDependency(id)), visited, []))
    else if g[id].state == Unverifiable then Some(Memoed(Err(HorizonExceeded(id)), visited, [id]))
    else
      match MemoisedFrom(g, threshold, id, visited, [id], depth - 1, 0, g[id].confidence, g[id].state)
      case None => None
      case Some(Memoed(Err(v), visited', expanded)) => Some(Memoed(Err(v), visited', expanded))
      case Some(Memoed(Ok(s), visited', expanded)) => Some(Memoed(Ok(s), visited'[id := s], expanded))
  }

  /** The dependency loop from dependency `k` on, and the check that follows it. */
  function MemoisedFrom(g: Graph, threshold: real, id: NodeId, visited: map<NodeId, EpistemicState>,
                        expanded: seq<NodeId>, depth: nat, k: nat, confidence: real, weakest: EpistemicState)
    : Option<Memoed>
    requires id in g && k <= |g[id].dependencies|
    decreases depth, 2, |g[id].dependencies| - k
  {
    if k == |g[id].dependencies| then
      Some(Memoed(if confidence < threshold then Err(ConfidenceDecay(id, confidence, threshold)) else Ok(weakest),
                  visited, expanded))
    else
      var d := g[id].dependencies[k];
      match Memoised(g, threshold, d, visited, depth)
      case None => None
      case Some(Memoed(Err(v), visited', more)) => Some(Memoed(Err(v), visited', expanded + more))
      case Some(Memoed(Ok(s), visited', more)) =>
        MemoisedFrom(g, threshold, id, visited', expanded + more, depth, k + 1,
                     Decayed(confidence, ConfidenceOf(g, d)), Weaker(weakest, s))
  }

  /** `v` is finished: recorded with the state its own evaluation yields, after all of its
      dependencies. */
  ghost predicate Finished(g: Graph, threshold: real, visited: map<NodeId, EpistemicState>, v: NodeId)
    requires v in visited
  {
    && v in g
    && Terminates(g, threshold, v)
    && Result(g, threshold, v) == Ok(visited[v])
    && Elements(g[v].dependencies) <= visited.Keys
  }

  /** What `visited` holds while an evaluation is under way: finished nodes only. */
  ghost predicate Memo(g: Graph, threshold: real, visited: map<NodeId, EpistemicState>) {
    forall v :: v in visited ==> Finished(g, threshold, visited, v)
  }

  lemma MemoGrows(g: Graph, threshold: real, visited: map<NodeId, EpistemicState>, v: NodeId, s: EpistemicState)
    requires Memo(g, threshold, visited)
    requires v in g && Terminates(g, threshold, v) && Result(g, threshold, v) == Ok(s)
    requires Elements(g[v].dependencies) <= visited.Keys
    ensures Memo(g, threshold, visited[v := s])
  {
    var visited' := visited[v := s];
    forall w | w in visited'
      ensures Finished(g, threshold, visited', w)
    {
      if w != v {
        assert Finished(g, threshold, visited, w);
      }
    }
  }

  ghost function Elements(s: seq<NodeId>): set<NodeId> {
    set x | x in s
  }

  lemma ElementsOfPrefix(s: seq<NodeId>, k: nat)
    requires k < |s|
    ensures Elements(s[..k + 1]) == Elements(s[..k]) + {s[k]}
  {
    assert s[..k + 1] == s[..k] + [s[k]];
  }

  /** The memory loses nothing and holds finished nodes only, the one just evaluated included. */
  ghost predicate Remembers(g: Graph, threshold: real, id: NodeId, visited: map<NodeId, EpistemicState>, m: Memoed) {
    && Memo(g, threshold, m.visited) && visited.Keys <= m.visited.Keys
    && (m.outcome.Ok? ==> id in m.visited)
  }

  /** When the traversal with memory returns, the evaluation without memory returns too, with
      the same outcome. */
  lemma {:induction false} MemoisedReturns(g: Graph, threshold: real, id: NodeId,
                                           visited: map<NodeId, EpistemicState>, depth: nat)
    requires Memo(g, threshold, visited) && Memoised(g, threshold, id, visited, depth).Some?
    ensures var m := Memoised(g, threshold, id, visited, depth).value;
      && Remembers(g, threshold, id, visited, m)
      && Terminates(g, threshold, id) && Result(g, threshold, id) == m.outcome
    decreases depth, 1, 0
  {
    if id in visited {
      assert Finished(g, threshold, visited, id);
    } else if id in g && g[id].state != Unverifiable {
      var n := MemoisedReturnsFrom(g, threshold, id, visited, [id], depth - 1, 0, g[id].confidence, g[id].state);
      ResultAtDepth(g, threshold, id, n + 1);
      var m := MemoisedFrom(g, threshold, id, visited, [id], depth - 1, 0, g[id].confidence, g[id].state).value;
      if m.outcome.Ok? {
        MemoGrows(g, threshold, m.visited, id, m.outcome.state);
      }
    } else {
      ResultAtDepth(g, threshold, id, 1);
    }
  }

  /** A depth that is enough for dependency `k` and one for the rest make one for both. */
  lemma OneMoreDependency(g: Graph, threshold: real, id: NodeId, k: nat, confidence: real, weakest: EpistemicState,
                          n: nat, rest: nat) returns (more: nat)
    requires id in g && k < |g[id].dependencies| && Succeeds(g, threshold, g[id].dependencies[k], n)
    requires var d, s := g[id].dependencies[k], Bounded(g, threshold, g[id].dependencies[k], n).value.state;
      BoundedFrom(g, threshold, id, rest, k + 1, Decayed(confidence, g[d].confidence), Weaker(weakest, s)).Some?
    ensures var d, s := g[id].dependencies[k], Bounded(g, threshold, g[id].dependencies[k], n).value.state;
      BoundedFrom(g, threshold, id, more, k, confidence, weakest)
      == BoundedFrom(g, threshold, id, rest, k + 1, Decayed(confidence, g[d].confidence), Weaker(weakest, s))
  {
    var d, s := g[id].dependencies[k], Bounded(g, threshold, g[id].dependencies[k], n).value.state;
    more := if n < rest then rest else n;
    MoreDepth(g, threshold, d, n, more);
    MoreDepthFrom(g, threshold, id, rest, more, k + 1, Decayed(confidence, g[d].confidence), Weaker(weakest, s));
  }

  lemma {:induction false} MemoisedReturnsFrom(g: Graph, threshold: real, id: NodeId,
                                               visited: map<NodeId, EpistemicState>, expanded: seq<NodeId>,
                                               depth: nat, k: nat, confidence: real, weakest: EpistemicState)
    returns (n: nat)
    requires id in g && k <= |g[id].dependencies|
    requires Memo(g, threshold, visited) && Elements(g[id].dependencies[..k]) <= visited.Keys
    requires MemoisedFrom(g, threshold, id, visited, expanded, depth, k, confidence, weakest).Some?
    ensures var m := MemoisedFrom(g, threshold, id, visited, expanded, depth, k, confidence, weakest).value;
      && Memo(g, threshold, m.visited) && visited.Keys <= m.visited.Keys
      && (m.outcome.Ok? ==> Elements(g[id].dependencies) <= m.visited.Keys)
      && BoundedFrom(g, threshold, id, n, k, confidence, weakest) == Some(m.outcome)
    decreases depth, 2, |g[id].dependencies| - k
  {
    var deps := g[id].dependencies;
    n := 0;
    if k == |deps| {
      assert deps[..k] == deps;
    } else {
      var d := deps[k];
      MemoisedReturns(g, threshold, d, visited, depth);
      var m := Memoised(g, threshold, d, visited, depth).value;
      n := LeastDepth(g, threshold, d);
      if m.outcome.Ok? {
        assert Finished(g, threshold, m.visited, d);
        ElementsOfPrefix(deps, k);
        var confidence', weakest' := Decayed(confidence, g[d].confidence), Weaker(weakest, m.outcome.state);
        var rest := MemoisedReturnsFrom(g, threshold, id, m.visited, expanded + m.expanded, depth, k + 1,
                                        confidence', weakest');
        n := OneMoreDependency(g, threshold, id, k, confidence, weakest, n, rest);
      }
    }
  }

  /** And the other way round: a depth that is enough without memory is enough with it. */
  lemma {:induction false} BoundedReturns(g: Graph, threshold: real, id: NodeId,
                                          visited: map<NodeId, EpistemicState>, depth: nat)
    requires Memo(g, threshold, visited) && Bounded(g, threshold, id, depth).Some?
    ensures Memoised(g, threshold, id, visited, depth).Some?
    decreases depth, 1, 0
  {
    if id !in visited && id in g && g[id].state != Unverifiable {
      BoundedReturnsFrom(g, threshold, id, visited, [id], depth - 1, 0, g[id].confidence, g[id].state);
    }
  }

  lemma {:induction false} BoundedReturnsFrom(g: Graph, threshold: real, id: NodeId,
                                              visited: map<NodeId, EpistemicState>, expanded: seq<NodeId>,
                                              depth: nat, k: nat, confidence: real, weakest: EpistemicState)
    requires id in g && k <= |g[id].dependencies| && Memo(g, threshold, visited)
    requires BoundedFrom(g, threshold, id, depth, k, confidence, weakest).Some?
    ensures MemoisedFrom(g, threshold, id, visited, expanded, depth, k, confidence, weakest).Some?
    decreases depth, 2, |g[id].dependencies| - k
  {
    if k < |g[id].dependencies| {
      var d := g[id].dependencies[k];
      BoundedReturns(g, threshold, d, visited, depth);
      MemoisedReturns(g, threshold, d, visited, depth);
      ResultAtDepth(g, threshold, d, depth);
      match Memoised(g, threshold, d, visited, depth).value
      case Memoed(Err(v), visited', more) =>
      case Memoed(Ok(s), visited', more) =>
        BoundedReturnsFrom(g, threshold, id, visited', expanded + more, depth, k + 1,
                           Decayed(confidence, g[d].confidence), Weaker(weakest, s));
    }
  }

  /** The source's evaluation of `root` returns: some call depth is enough. */
  ghost predicate Returns(g: Graph, threshold: real, root: NodeId) {
    exists depth: nat :: Memoised(g, threshold, root, map[], depth).Some?
  }

  /** The memory changes neither whether an evaluation returns nor what it returns. */
  lemma MemoryChangesNothing(g: Graph, threshold: real, root: NodeId)
    ensures Returns(g, threshold, root) <==> Terminates(g, threshold, root)
    ensures forall depth: nat :: Memoised(g, threshold, root, map[], depth).Some? ==>
      Memoised(g, threshold, root, map[], depth).value.outcome == Result(g, threshold, root)
  {
    forall depth: nat | Memoised(g, threshold, root, map[], depth).Some?
      ensures Terminates(g, threshold, root)
      ensures Memoised(g, threshold, root, map[], depth).value.outcome == Result(g, threshold, root)
    {
      MemoisedReturns(g, threshold, root, map[], depth);
    }
    if Terminates(g, threshold, root) {
      var depth: nat :| Bounded(g, threshold, root, depth).Some?;
      BoundedReturns(g, threshold, root, map[], depth);
    }
  }

  /** On every graph: the evaluation returns success exactly when no cycle is reachable and every
      reachable node is healthy. */
  lemma SucceedsExactly(g: Graph, threshold: real, root: NodeId)
    ensures (exists depth: nat :: MemoisedSucceeds(g, threshold, root, depth)) <==>
            AcyclicFrom(g, root) && AllHealthy(g, threshold, root)
  {
    MemoryChangesNothing(g, threshold, root);
    EvaluationSucceedsExactly(g, threshold, root);
    if AcyclicFrom(g, root) && AllHealthy(g, threshold, root) {
      var depth: nat :| Memoised(g, threshold, root, map[], depth).Some?;
      assert MemoisedSucceeds(g, threshold, root, depth);
    }
  }

  predicate MemoisedSucceeds(g: Graph, threshold: real, root: NodeId, depth: nat) {
    var m := Memoised(g, threshold, root, map[], depth); m.Some? && m.value.outcome.Ok?
  }

  // ---------------------------------------------------------------- on which graphs it returns

  /** An evaluation of `d` succeeds: no cycle is reachable and nothing reachable is at fault. */
  ghost predicate Sound(g: Graph, threshold: real, d: NodeId) {
    AcyclicFrom(g, d) && AllHealthy(g, threshold, d)
  }

  /** The dependencies that are evaluated: all up to the first that is not sound. */
  ghost function Attempted(g: Graph, threshold: real, ds: seq<NodeId>): (a: seq<NodeId>)
    ensures |a| <= |ds| && a == ds[..|a|]
    ensures forall j :: 0 <= j < |a| - 1 ==> Sound(g, threshold, ds[j])
    ensures |a| < |ds| ==> a != [] && !Sound(g, threshold, ds[|a| - 1])
  {
    if ds == [] then []
    else if Sound(g, threshold, ds[0]) then [ds[0]] + Attempted(g, threshold, ds[1..])
    else [ds[0]]
  }

  /** The graph of the calls an evaluation makes. */
  ghost function LiveGraph(g: Graph, threshold: real): Graph {
    map a | a in g ::
      g[a].(dependencies := if g[a].state == Unverifiable then [] else Attempted(g, threshold, g[a].dependencies))
  }

  /** An evaluation of `a` calls itself on `d`: all dependencies of `a` before it are sound. */
  ghost predicate Calls(g: Graph, threshold: real, a: NodeId, d: NodeId) {
    a in g && g[a].state != Unverifiable && exists k :: CallsAt(g, threshold, a, d, k)
  }

  ghost predicate CallsAt(g: Graph, threshold: real, a: NodeId, d: NodeId, k: nat)
    requires a in g
  {
    && k < |g[a].dependencies| && g[a].dependencies[k] == d
    && forall j :: 0 <= j < k ==> Sound(g, threshold, g[a].dependencies[j])
  }

  ghost predicate IsLive(g: Graph, threshold: real, live: Graph) {
    forall a, d :: Edge(live, a, d) <==> Calls(g, threshold, a, d)
  }

  lemma LiveGraphHoldsCalls(g: Graph, threshold: real)
    ensures IsLive(g, threshold, LiveGraph(g, threshold))
  {
    var live := LiveGraph(g, threshold);
    forall a, d
      ensures Edge(live, a, d) <==> Calls(g, threshold, a, d)
    {
      if a in g && g[a].state != Unverifiable {
        var all, attempted := g[a].dependencies, Attempted(g, threshold, g[a].dependencies);
        if d in attempted {
          var k :| 0 <= k < |attempted| && attempted[k] == d;
          assert CallsAt(g, threshold, a, d, k);
        }
        if k: nat :| CallsAt(g, threshold, a, d, k) {
          assert forall j :: 0 <= j < k ==> Sound(g, threshold, all[j]);
          assert k < |attempted|;
          assert attempted[k] == d;
        }
      }
    }
  }

  lemma {:induction false} LiveAcyclicReturns(g: Graph, threshold: real, live: Graph, id: NodeId, depth: nat)
    requires IsLive(g, threshold, live) && AcyclicFrom(live, id) && Height(live, id) < depth
    ensures Bounded(g, threshold, id, depth).Some?
    decreases depth, 1, 0
  {
    if id in g && g[id].state != Unverifiable {
      LiveAcyclicReturnsFrom(g, threshold, live, id, depth - 1, 0, g[id].confidence, g[id].state);
    }
  }

  lemma {:induction false} LiveAcyclicReturnsFrom(g: Graph, threshold: real, live: Graph, id: NodeId, depth: nat,
                                                  k: nat, confidence: real, weakest: EpistemicState)
    requires IsLive(g, threshold, live) && AcyclicFrom(live, id) && Height(live, id) <= depth
    requires id in g && g[id].state != Unverifiable && k <= |g[id].dependencies|
    requires forall j :: 0 <= j < k ==> Sound(g, threshold, g[id].dependencies[j])
    ensures BoundedFrom(g, threshold, id, depth, k, confidence, weakest).Some?
    decreases depth, 2, |g[id].dependencies| - k
  {
    if k < |g[id].dependencies| {
      var d := g[id].dependencies[k];
      assert CallsAt(g, threshold, id, d, k);
      assert Edge(live, id, d);
      EdgeLowersHeight(live, id, d);
      LiveAcyclicReturns(g, threshold, live, d, depth);
      ResultAtDepth(g, threshold, d, depth);
      match Bounded(g, threshold, d, depth).value
      case Err(v) =>
      case Ok(s) =>
        EvaluationSucceedsExactly(g, threshold, d);
        LiveAcyclicReturnsFrom(g, threshold, live, id, depth, k + 1,
                               Decayed(confidence, g[d].confidence), Weaker(weakest, s));
    }
  }

  /** A call that is made returns within one level less. */
  lemma {:induction false} CallReturns(g: Graph, threshold: real, id: NodeId, d: NodeId, depth: nat)
    requires Bounded(g, threshold, id, depth).Some? && Calls(g, threshold, id, d)
    ensures depth > 0 && Bounded(g, threshold, d, depth - 1).Some?
  {
    var k: nat :| CallsAt(g, threshold, id, d, k);
    CallReturnsFrom(g, threshold, id, depth - 1, 0, g[id].confidence, g[id].state, k);
  }

  lemma {:induction false} CallReturnsFrom(g: Graph, threshold: real, id: NodeId, depth: nat, k: nat,
                                           confidence: real, weakest: EpistemicState, j: nat)
    requires id in g && k <= j < |g[id].dependencies|
    requires forall i :: 0 <= i < j ==> Sound(g, threshold, g[id].dependencies[i])
    requires BoundedFrom(g, threshold, id, depth, k, confidence, weakest).Some?
    ensures Bounded(g, threshold, g[id].dependencies[j], depth).Some?
    decreases j - k
  {
    if k < j {
      var d := g[id].dependencies[k];
      EvaluationSucceedsExactly(g, threshold, d);
      ResultAtDepth(g, threshold, d, depth);
      var s := Result(g, threshold, d).state;
      CallReturnsFrom(g, threshold, id, depth, k + 1, Decayed(confidence, g[d].confidence), Weaker(weakest, s), j);
    }
  }

  lemma {:induction false} CallsReturnAlongPath(g: Graph, threshold: real, live: Graph, p: seq<NodeId>, depth: nat)
    requires IsLive(g, threshold, live) && IsPath(live, p) && Bounded(g, threshold, p[0], depth).Some?
    ensures |p| <= depth && Bounded(g, threshold, p[|p| - 1], depth - (|p| - 1)).Some?
    decreases |p|
  {
    if |p| > 1 {
      assert Edge(live, p[0], p[1]);
      CallReturns(g, threshold, p[0], p[1], depth);
      forall i | 0 <= i < |p[1..]| - 1
        ensures Edge(live, p[1..][i], p[1..][i + 1])
      {
        assert Edge(live, p[i + 1], p[i + 2]);
      }
      CallsReturnAlongPath(g, threshold, live, p[1..], depth - 1);
    }
  }

  lemma {:induction false} NoReturnOnLiveCycle(g: Graph, threshold: real, live: Graph, u: NodeId, depth: nat)
    requires IsLive(g, threshold, live) && OnCycle(live, u)
    ensures Bounded(g, threshold, u, depth) == None
    decreases depth
  {
    if Bounded(g, threshold, u, depth).Some? {
      var v :| Edge(live, u, v) && Reaches(live, v, u);
      var p :| PathBetween(live, p, v, u);
      CallReturns(g, threshold, u, v, depth);
      CallsReturnAlongPath(g, threshold, live, p, depth - 1);
      NoReturnOnLiveCycle(g, threshold, live, u, depth - |p|);
    }
  }

  lemma ReturnMeansLiveAcyclic(g: Graph, threshold: real, live: Graph, root: NodeId, depth: nat)
    requires IsLive(g, threshold, live) && Bounded(g, threshold, root, depth).Some?
    ensures AcyclicFrom(live, root)
  {
    forall u | Reaches(live, root, u)
      ensures !OnCycle(live, u)
    {
      var p :| PathBetween(live, p, root, u);
      CallsReturnAlongPath(g, threshold, live, p, depth);
      if OnCycle(live, u) {
        NoReturnOnLiveCycle(g, threshold, live, u, depth - (|p| - 1));
      }
    }
  }

  /** On every graph: the evaluation returns exactly when no cycle can be reached along
      dependencies that it gets to, those whose earlier siblings are all sound. */
  lemma ReturnsExactly(g: Graph, threshold: real, root: NodeId)
    ensures Returns(g, threshold, root) <==> AcyclicFrom(LiveGraph(g, threshold), root)
  {
    var live := LiveGraph(g, threshold);
    LiveGraphHoldsCalls(g, threshold);
    MemoryChangesNothing(g, threshold, root);
    if AcyclicFrom(live, root) {
      LiveAcyclicReturns(g, threshold, live, root, Height(live, root) + 1);
    }
    if Terminates(g, threshold, root) {
      var depth: nat :| Bounded(g, threshold, root, depth).Some?;
      ReturnMeansLiveAcyclic(g, threshold, live, root, depth);
    }
  }

  /** With nothing to report and a reachable cycle, the evaluation never returns. */
  lemma HealthyCycleNeverReturns(g: Graph, threshold: real, root: NodeId)
    requires AllHealthy(g, threshold, root) && !AcyclicFrom(g, root)
    ensures !Returns(g, threshold, root)
  {
    MemoryChangesNothing(g, threshold, root);
    EvaluationSucceedsExactly(g, threshold, root);
    if Terminates(g, threshold, root) {
      OutcomeByReachability(g, threshold, root);
    }
  }

  /** The smallest such graph: one verified node of full confidence that depends on itself. */
  lemma SelfDependencyNeverReturns(threshold: real)
    ensures !Returns(map[1 := CausalNode(1, Verified, 1.0, [1])], threshold, 1)
  {
    var g := map[1 := CausalNode(1, Verified, 1.0, [1])];
    LiveGraphHoldsCalls(g, threshold);
    assert CallsAt(g, threshold, 1, 1, 0);
    assert Edge(LiveGraph(g, threshold), 1, 1);
    ReachesSelf(LiveGraph(g, threshold), 1);
    assert OnCycle(LiveGraph(g, threshold), 1);
    ReturnsExactly(g, threshold, 1);
  }

  /** A cycle alone is not enough: a fault that is met first is reported. */
  lemma FaultBeforeCycleReturns(threshold: real)
    ensures var g := map[1 := CausalNode(1, Verified, 1.0, [2, 1])];
      && !AcyclicFrom(g, 1)
      && Memoised(g, threshold, 1, map[], 2) == Some(Memoed(Err(MissingDependency(2)), map[], [1]))
  {
    var g := map[1 := CausalNode(1, Verified, 1.0, [2, 1])];
    ReachesSelf(g, 1);
    assert g[1].dependencies[1] == 1;
    assert Edge(g, 1, 1) && OnCycle(g, 1);
    assert Memoised(g, threshold, 2, map[], 1) == Some(Memoed(Err(MissingDependency(2)), map[], []));
    assert [1] + [] == [1];
    assert MemoisedFrom(g, threshold, 1, map[], [1], 1, 0, 1.0, Verified)
        == Some(Memoed(Err(MissingDependency(2)), map[], [1]));
  }

  // ---------------------------------------------------------------- what is expanded

  ghost predicate Distinct(s: seq<NodeId>) {
    forall i, j :: 0 <= i < j < |s| ==> s[i] != s[j]
  }

  /** The evaluation of `x` returns within the depth that `id` needs. */
  ghost predicate NoDeeper(g: Graph, threshold: real, x: NodeId, id: NodeId) {
    && Terminates(g, threshold, x) && Terminates(g, threshold, id)
    && LeastDepth(g, threshold, x) <= LeastDepth(g, threshold, id)
  }

  /** The nodes expanded below `id`: each once, none of them already known, all reached, and
      none needing more depth than `id` itself. */
  ghost predicate Fresh(g: Graph, threshold: real, id: NodeId, known: set<NodeId>, expanded: seq<NodeId>) {
    && Distinct(expanded)
    && forall x :: x in expanded ==> x !in known && x in g && Reaches(g, id, x) && NoDeeper(g, threshold, x, id)
  }

  /** What one dependency adds to the expanded nodes, whether it succeeded or not. */
  lemma FreshGrows(g: Graph, threshold: real, id: NodeId, d: NodeId,
                   known: set<NodeId>, expanded: seq<NodeId>, more: seq<NodeId>)
    requires Edge(g, id, d) && NoDeeper(g, threshold, d, id)
    requires LeastDepth(g, threshold, d) < LeastDepth(g, threshold, id)
    requires Fresh(g, threshold, id, known, expanded)
    requires Fresh(g, threshold, d, known + Elements(expanded) - {id}, more)
    ensures Fresh(g, threshold, id, known, expanded + more)
    ensures known + Elements(expanded + more) - {id} == (known + Elements(expanded) - {id}) + Elements(more)
  {
    ReachesByEdge(g, id, d);
    forall x | x in more
      ensures x !in known && x !in expanded && x in g && x != id && Reaches(g, id, x) && NoDeeper(g, threshold, x, id)
    {
      ReachesTransitive(g, id, d, x);
      assert x in expanded ==> x in Elements(expanded);
    }
    var all := expanded + more;
    forall i, j | 0 <= i < j < |all|
      ensures all[i] != all[j]
    {
      if j >= |expanded| {
        assert all[j] in more;
      }
    }
  }

  /** Where an evaluation of `id` stands after its first `k` dependencies. */
  ghost predicate Progress(g: Graph, threshold: real, id: NodeId, k: nat, visited: map<NodeId, EpistemicState>,
                           now: map<NodeId, EpistemicState>, expanded: seq<NodeId>)
    requires id in g && k <= |g[id].dependencies|
  {
    && Memo(g, threshold, now)
    && now.Keys == visited.Keys + Elements(expanded) - {id}
    && id in expanded && id !in visited && Fresh(g, threshold, id, visited.Keys, expanded)
    && Elements(g[id].dependencies[..k]) <= now.Keys
  }

  lemma ProgressStep(g: Graph, threshold: real, id: NodeId, k: nat, visited: map<NodeId, EpistemicState>,
                     now: map<NodeId, EpistemicState>, expanded: seq<NodeId>, m: Memoed)
    requires id in g && k < |g[id].dependencies| && Progress(g, threshold, id, k, visited, now, expanded)
    requires Fresh(g, threshold, id, visited.Keys, expanded + m.expanded)
    requires visited.Keys + Elements(expanded + m.expanded) - {id} == now.Keys + Elements(m.expanded)
    requires Memo(g, threshold, m.visited) && g[id].dependencies[k] in m.visited
    requires m.visited.Keys == now.Keys + Elements(m.expanded)
    ensures Progress(g, threshold, id, k + 1, visited, m.visited, expanded + m.expanded)
  {
    ElementsOfPrefix(g[id].dependencies, k);
  }

  /** A dependency whose turn comes needs less depth than the node itself. */
  lemma DependencyIsShallower(g: Graph, threshold: real, id: NodeId, k: nat, now: map<NodeId, EpistemicState>)
    requires id in g && g[id].state != Unverifiable && k < |g[id].dependencies| && Terminates(g, threshold, id)
    requires Memo(g, threshold, now) && Elements(g[id].dependencies[..k]) <= now.Keys
    ensures NoDeeper(g, threshold, g[id].dependencies[k], id)
    ensures LeastDepth(g, threshold, g[id].dependencies[k]) < LeastDepth(g, threshold, id)
  {
    var deps := g[id].dependencies;
    forall j | 0 <= j < k
      ensures Sound(g, threshold, deps[j])
    {
      assert deps[..k][j] in Elements(deps[..k]);
      assert Finished(g, threshold, now, deps[j]);
      EvaluationSucceedsExactly(g, threshold, deps[j]);
    }
    assert CallsAt(g, threshold, id, deps[k], k);
    var least := LeastDepth(g, threshold, id);
    CallReturns(g, threshold, id, deps[k], least);
    ResultAtDepth(g, threshold, deps[k], least - 1);
  }

  /** No call expands a node twice, or one that is known; what a success adds to the memory is
      what it has expanded. */
  ghost predicate Expands(g: Graph, threshold: real, id: NodeId, visited: map<NodeId, EpistemicState>, m: Memoed) {
    && Fresh(g, threshold, id, visited.Keys, m.expanded)
    && (m.outcome.Ok? ==> m.visited.Keys == visited.Keys + Elements(m.expanded))
  }

  lemma {:induction false} NothingExpandedTwice(g: Graph, threshold: real, id: NodeId,
                                                visited: map<NodeId, EpistemicState>, depth: nat)
    requires Memo(g, threshold, visited) && Memoised(g, threshold, id, visited, depth).Some?
    ensures Expands(g, threshold, id, visited, Memoised(g, threshold, id, visited, depth).value)
    decreases depth, 1, 0
  {
    MemoisedReturns(g, threshold, id, visited, depth);
    ReachesSelf(g, id);
    if id !in visited && id in g && g[id].state != Unverifiable {
      NothingExpandedTwiceFrom(g, threshold, id, visited, visited, [id], depth - 1, 0,
                               g[id].confidence, g[id].state);
    }
  }

  lemma {:induction false} NothingExpandedTwiceFrom(
      g: Graph, threshold: real, id: NodeId, visited: map<NodeId, EpistemicState>, now: map<NodeId, EpistemicState>,
      expanded: seq<NodeId>, depth: nat, k: nat, confidence: real, weakest: EpistemicState)
    requires id in g && g[id].state != Unverifiable && k <= |g[id].dependencies| && Terminates(g, threshold, id)
    requires Progress(g, threshold, id, k, visited, now, expanded)
    requires MemoisedFrom(g, threshold, id, now, expanded, depth, k, confidence, weakest).Some?
    ensures var m := MemoisedFrom(g, threshold, id, now, expanded, depth, k, confidence, weakest).value;
      && Fresh(g, threshold, id, visited.Keys, m.expanded) && id in m.expanded
      && (m.outcome.Ok? ==> m.visited.Keys == visited.Keys + Elements(m.expanded) - {id})
    decreases depth, 2, |g[id].dependencies| - k
  {
    if k < |g[id].dependencies| {
      var d := g[id].dependencies[k];
      NothingExpandedTwice(g, threshold, d, now, depth);
      MemoisedReturns(g, threshold, d, now, depth);
      var m := Memoised(g, threshold, d, now, depth).value;
      DependencyIsShallower(g, threshold, id, k, now);
      FreshGrows(g, threshold, id, d, visited.Keys, expanded, m.expanded);
      if m.outcome.Ok? {
        ProgressStep(g, threshold, id, k, visited, now, expanded, m);
        NothingExpandedTwiceFrom(g, threshold, id, visited, m.visited, expanded + m.expanded, depth, k + 1,
                                 Decayed(confidence, ConfidenceOf(g, d)), Weaker(weakest, m.outcome.state));
      }
    }
  }

  lemma {:induction false} ClosedUnderReach(g: Graph, s: set<NodeId>, a: NodeId, b: NodeId)
    requires a in s && Reaches(g, a, b)
    requires forall v, d :: v in s && Edge(g, v, d) ==> d in s
    ensures b in s
  {
    var p :| PathBetween(g, p, a, b);
    for i := 0 to |p| - 1
      invariant p[i] in s
    {
      assert Edge(g, p[i], p[i + 1]);
    }
  }

  class CausalConfidenceArbiter {
    var nodes: Graph
    const executionThreshold: real

    constructor (threshold: real)
      ensures nodes == map[]
      ensures 0.0 <= executionThreshold <= 1.0
      ensures 0.0 <= threshold <= 1.0 ==> executionThreshold == threshold
      ensures threshold < 0.0 ==> executionThreshold == 0.0
      ensures threshold > 1.0 ==> executionThreshold == 1.0
    {
      nodes := map[];
      executionThreshold := if threshold < 0.0 then 0.0 else if threshold > 1.0 then 1.0 else threshold;
    }

    method RegisterNode(node: CausalNode)
      modifies this
      ensures nodes == old(nodes)[node.id := node]
    {
      nodes := nodes[node.id := node];
    }

    /** Wherever the evaluation returns at all, its outcome is decided by reachability alone; no
        node is expanded twice, and a success has expanded exactly the reachable nodes. */
    method EvaluateChain(root: NodeId) returns (r: Outcome, ghost expanded: seq<NodeId>)
      requires Returns(nodes, executionThreshold, root)
      ensures forall depth: nat :: Memoised(nodes, executionThreshold, root, map[], depth).Some? ==>
        Memoised(nodes, executionThreshold, root, map[], depth).value.outcome == r
      ensures r.Ok? <==> AllHealthy(nodes, executionThreshold, root)
      ensures r.Ok? ==> IsWeakest(nodes, root, r.state)
      ensures r.Err? ==> Witnessed(nodes, executionThreshold, root, r.violation)
      ensures Distinct(expanded)
      ensures r.Ok? ==> Elements(expanded) == ReachSet(nodes, root)
    {
      MemoryChangesNothing(nodes, executionThreshold, root);
      OutcomeByReachability(nodes, executionThreshold, root);
      ghost var depth: nat :| Memoised(nodes, executionThreshold, root, map[], depth).Some?;
      var visited: map<NodeId, EpistemicState>;
      r, visited, expanded := Traverse(root, map[], depth);
      if r.Ok? {
        forall u | Reaches(nodes, root, u)
          ensures u in visited
        {
          forall v, d | v in visited && Edge(nodes, v, d)
            ensures d in visited
          {
            assert Finished(nodes, executionThreshold, visited, v);
            assert d in Elements(nodes[v].dependencies);
          }
          ClosedUnderReach(nodes, visited.Keys, root, u);
        }
        assert Elements(expanded) == visited.Keys;
      }
    }

    /** The recursive traversal. `visited` is passed in and handed back; `depth` is a call depth
        that is enough. */
    method Traverse(currentId: NodeId, visited: map<NodeId, EpistemicState>, ghost depth: nat)
      returns (r: Outcome, visited': map<NodeId, EpistemicState>, ghost expanded: seq<NodeId>)
      requires Memoised(nodes, executionThreshold, currentId, visited, depth).Some?
      requires Memo(nodes, executionThreshold, visited)
      ensures Memoised(nodes, executionThreshold, currentId, visited, depth) == Some(Memoed(r, visited', expanded))
      ensures Terminates(nodes, executionThreshold, currentId) && r == Result(nodes, executionThreshold, currentId)
      ensures Remembers(nodes, executionThreshold, currentId, visited, Memoed(r, visited', expanded))
      ensures Expands(nodes, executionThreshold, currentId, visited, Memoed(r, visited', expanded))
      decreases depth, 1
    {
      MemoisedReturns(nodes, executionThreshold, currentId, visited, depth);
      NothingExpandedTwice(nodes, executionThreshold, currentId, visited, depth);
      expanded := [];
      visited' := visited;
      if currentId in visited {
        return Ok(visited[currentId]), visited', expanded;
      }
      if currentId !in nodes {
        return Err(MissingDependency(currentId)), visited', expanded;
      }
      expanded := [currentId];
      if nodes[currentId].state == Unverifiable {
        return Err(HorizonExceeded(currentId)), visited', expanded;
      }
      var failure, minConfidence, weakestState;
      failure, minConfidence, weakestState, visited', expanded := VisitDependencies(currentId, visited, depth - 1);
      if failure.Some? {
        return Err(failure.value), visited', expanded;
      }
      if minConfidence < executionThreshold {
        return Err(ConfidenceDecay(currentId, minConfidence, executionThreshold)), visited', expanded;
      }
      visited' := visited'[currentId := weakestState];
      r := Ok(weakestState);
    }

    /** The loop of the traversal over the dependencies of a node that is being expanded: either
        the first violation below it, or the accumulated confidence and weakest state. */
    method VisitDependencies(currentId: NodeId, visited: map<NodeId, EpistemicState>, ghost depth: nat)
      returns (failure: Option<EpistemicViolation>, minConfidence: real, weakestState: EpistemicState,
               visited': map<NodeId, EpistemicState>, ghost expanded: seq<NodeId>)
      requires currentId in nodes && nodes[currentId].state != Unverifiable && currentId !in visited
      requires Memo(nodes, executionThreshold, visited)
      requires MemoisedFrom(nodes, executionThreshold, currentId, visited, [currentId], depth, 0,
                            nodes[currentId].confidence, nodes[currentId].state).Some?
      ensures MemoisedFrom(nodes, executionThreshold, currentId, visited, [currentId], depth, 0,
                           nodes[currentId].confidence, nodes[currentId].state)
           == if failure.Some? then Some(Memoed(Err(failure.value), visited', expanded))
              else MemoisedFrom(nodes, executionThreshold, currentId, visited', expanded, depth,
                                |nodes[currentId].dependencies|, minConfidence, weakestState)
      ensures Terminates(nodes, executionThreshold, currentId)
      ensures Result(nodes, executionThreshold, currentId)
           == if failure.Some? then Err(failure.value)
              else if minConfidence < executionThreshold
              then Err(ConfidenceDecay(currentId, minConfidence, executionThreshold))
              else Ok(weakestState)
      decreases depth + 1, 0
    {
      MemoisedReturns(nodes, executionThreshold, currentId, visited, depth + 1);
      var node := nodes[currentId];
      minConfidence, weakestState := node.confidence, node.state;
      failure, visited', expanded := None, visited, [currentId];
      ghost var whole := MemoisedFrom(nodes, executionThreshold, currentId, visited, [currentId], depth, 0,
                                      node.confidence, node.state);
      for k := 0 to |node.dependencies|
        invariant Memo(nodes, executionThreshold, visited')
        invariant MemoisedFrom(nodes, executionThreshold, currentId, visited', expanded, depth, k,
                               minConfidence, weakestState) == whole
      {
        var depId := node.dependencies[k];
        var depOutcome: Outcome;
        ghost var more := [];
        depOutcome, visited', more := Traverse(depId, visited', depth);
        expanded := expanded + more;
        if depOutcome.Err? {
          failure := Some(depOutcome.violation);
          return;
        }
        weakestState := Weaker(weakestState, depOutcome.state);
        assert Finished(nodes, executionThreshold, visited', depId);
        minConfidence := Decayed(minConfidence, nodes[depId].confidence);
      }
    }
  }
}
