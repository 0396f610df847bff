/** The arbiter's evaluation without its memory, as a function of the graph and a bound on the
    call depth, and what reachability says about its outcome. */
module CausalEvaluation {
  import opened Wrappers
  import opened CausalGraph

  /** Evaluation on any graph with a bounded call depth; `None` when the bound is too small. */
  function Bounded(g: Graph, threshold: real, id: NodeId, depth: nat): (r: Option<Outcome>)
    ensures r.Some? && r.value.Ok? ==> id in g && depth > 0
    decreases depth, 1, 0
  {
    if depth == 0 then None
    else if id !in g then Some(Err(MissingDependency(id)))
    else if g[id].state == Unverifiable then Some(Err(HorizonExceeded(id)))
    else BoundedFrom(g, threshold, id, depth - 1, 0, g[id].confidence, g[id].state)
  }

  function BoundedFrom(g: Graph, threshold: real, id: NodeId, depth: nat, k: nat,
                       confidence: real, weakest: EpistemicState): (r: Option<Outcome>)
    requires id in g && k <= |g[id].dependencies|
    decreases depth, 2, |g[id].dependencies| - k
  {
    if k == |g[id].dependencies| then
      Some(if confidence < threshold then Err(ConfidenceDecay(id, confidence, threshold))
           else Ok(weakest))
    else
      var d := g[id].dependencies[k];
      match Bounded(g, threshold, d, depth)
      case None => None
      case Some(Err(v)) => Some(Err(v))
      case Some(Ok(s)) => BoundedFrom(g, threshold, id, depth, k + 1,
                                      Decayed(confidence, g[d].confidence), Weaker(weakest, s))
  }

  /** A deeper bound never changes an outcome already reached. */
  lemma {:induction false} MoreDepth(g: Graph, threshold: real, id: NodeId, depth: nat, more: nat)
    requires depth <= more && Bounded(g, threshold, id, depth).Some?
    ensures Bounded(g, threshold, id, more) == Bounded(g, threshold, id, depth)
    decreases depth, 1, 0
  {
    if id in g && g[id].state != Unverifiable {
      MoreDepthFrom(g, threshold, id, depth - 1, more - 1, 0, g[id].confidence, g[id].state);
    }
  }

  lemma {:induction false} MoreDepthFrom(g: Graph, threshold: real, id: NodeId, depth: nat, more: nat, k: nat,
                                         confidence: real, weakest: EpistemicState)
    requires id in g && k <= |g[id].dependencies| && depth <= more
    requires BoundedFrom(g, threshold, id, depth, k, confidence, weakest).Some?
    ensures BoundedFrom(g, threshold, id, more, k, confidence, weakest)
         == BoundedFrom(g, threshold, id, depth, k, confidence, weakest)
    decreases depth, 2, |g[id].dependencies| - k
  {
    if k < |g[id].dependencies| {
      var d := g[id].dependencies[k];
      MoreDepth(g, threshold, d, depth, more);
      match Bounded(g, threshold, d, depth).value
      case Err(v) =>
      case Ok(s) =>
        MoreDepthFrom(g, threshold, id, depth, more, k + 1, Decayed(confidence, g[d].confidence), Weaker(weakest, s));
    }
  }

  /** The source's evaluation returns. */
  ghost predicate Terminates(g: Graph, threshold: real, id: NodeId) {
    exists depth: nat :: Bounded(g, threshold, id, depth).Some?
  }

  ghost predicate IsLeastDepth(g: Graph, threshold: real, id: NodeId, depth: nat) {
    Bounded(g, threshold, id, depth).Some?
    && forall d: nat :: Bounded(g, threshold, id, d).Some? ==> depth <= d
  }

  lemma {:induction false} LeastDepthExists(g: Graph, threshold: real, id: NodeId, depth: nat) returns (least: nat)
    requires Bounded(g, threshold, id, depth).Some?
    ensures IsLeastDepth(g, threshold, id, least)
    decreases depth
  {
    if d: nat :| d < depth && Bounded(g, threshold, id, d).Some? {
      least := LeastDepthExists(g, threshold, id, d);
    } else {
      least := depth;
    }
  }

  /** The call depth the evaluation needs, the measure on which it terminates. */
  ghost function LeastDepth(g: Graph, threshold: real, id: NodeId): (depth: nat)
    requires Terminates(g, threshold, id)
    ensures IsLeastDepth(g, threshold, id, depth)
  {
    assert exists depth :: IsLeastDepth(g, threshold, id, depth) by {
      var d: nat :| Bounded(g, threshold, id, d).Some?;
      var least := LeastDepthExists(g, threshold, id, d);
    }
    var depth :| IsLeastDepth(g, threshold, id, depth);
    depth
  }

  /** What the evaluation without memory returns, and which violation it reports first. */
  ghost function Result(g: Graph, threshold: real, id: NodeId): Outcome
    requires Terminates(g, threshold, id)
  {
    Bounded(g, threshold, id, LeastDepth(g, threshold, id)).value
  }

  /** Any depth that is enough gives the result. */
  lemma ResultAtDepth(g: Graph, threshold: real, id: NodeId, depth: nat)
    requires Bounded(g, threshold, id, depth).Some?
    ensures Terminates(g, threshold, id) && LeastDepth(g, threshold, id) <= depth
    ensures Bounded(g, threshold, id, depth) == Some(Result(g, threshold, id))
  {
    MoreDepth(g, threshold, id, LeastDepth(g, threshold, id), depth);
  }

  // ---------------------------------------------------------------- what success means

  /** `s` is the weakest state over the node itself and everything reached through its first
      `k` dependencies. */
  ghost predicate WeakestThrough(g: Graph, id: NodeId, k: nat, s: EpistemicState)
    requires id in g && k <= |g[id].dependencies|
  {
    && (exists u :: Reaches(g, id, u) && u in g && g[u].state == s)
    && g[id].state.Weakness() <= s.Weakness()
    && (forall j, u :: 0 <= j < k && Reaches(g, g[id].dependencies[j], u) && u in g ==>
          g[u].state.Weakness() <= s.Weakness())
  }

  lemma WeakestOfWhole(g: Graph, id: NodeId, s: EpistemicState)
    requires id in g && WeakestThrough(g, id, |g[id].dependencies|, s)
    ensures IsWeakest(g, id, s)
  {
    forall u | Reaches(g, id, u) && u in g
      ensures g[u].state.Weakness() <= s.Weakness()
    {
      var b := ReachesFirstStep(g, id, u);
      if u != id {
        var j :| 0 <= j < |g[id].dependencies| && g[id].dependencies[j] == b;
      }
    }
  }

  lemma WeakestExtends(g: Graph, id: NodeId, k: nat, s: EpistemicState, t: EpistemicState)
    requires id in g && k < |g[id].dependencies|
    requires WeakestThrough(g, id, k, s) && IsWeakest(g, g[id].dependencies[k], t)
    ensures WeakestThrough(g, id, k + 1, Weaker(s, t))
  {
    var d := g[id].dependencies[k];
    var u :| Reaches(g, d, u) && u in g && g[u].state == t;
    ReachesByEdge(g, id, d);
    ReachesTransitive(g, id, d, u);
  }

  /** Success at a node vouches for everything reached from it. */
  lemma {:induction false} SuccessMeansHealthy(g: Graph, threshold: real, id: NodeId, depth: nat)
    requires Succeeds(g, threshold, id, depth)
    ensures AllHealthy(g, threshold, id)
    ensures IsWeakest(g, id, Bounded(g, threshold, id, depth).value.state)
    decreases depth, 1, 0
  {
    ReachesSelf(g, id);
    assert g[id].confidence == Decayed(g[id].confidence, Product(g, []));
    SuccessMeansHealthyFrom(g, threshold, id, depth - 1, 0, g[id].confidence, g[id].state);
    AllHealthySplits(g, threshold, id);
    WeakestOfWhole(g, id, Bounded(g, threshold, id, depth).value.state);
  }

  lemma {:induction false} SuccessMeansHealthyFrom(g: Graph, threshold: real, id: NodeId, depth: nat, k: nat,
                                                   confidence: real, weakest: EpistemicState)
    requires id in g && k <= |g[id].dependencies|
    requires confidence == Decayed(g[id].confidence, Product(g, g[id].dependencies[..k]))
    requires WeakestThrough(g, id, k, weakest)
    requires var r := BoundedFrom(g, threshold, id, depth, k, confidence, weakest); r.Some? && r.value.Ok?
    ensures forall j :: k <= j < |g[id].dependencies| ==> AllHealthy(g, threshold, g[id].dependencies[j])
    ensures CompoundConfidence(g, id) >= threshold
    ensures WeakestThrough(g, id, |g[id].dependencies|,
                           BoundedFrom(g, threshold, id, depth, k, confidence, weakest).value.state)
    decreases depth, 2, |g[id].dependencies| - k
  {
    var deps := g[id].dependencies;
    if k == |deps| {
      assert deps[..k] == deps;
    } else {
      var d := deps[k];
      SuccessMeansHealthy(g, threshold, d, depth);
      var s := Bounded(g, threshold, d, depth).value.state;
      assert deps[..k + 1][..k] == deps[..k];
      ProductStep(g[id].confidence, Product(g, deps[..k]), g[d].confidence);
      WeakestExtends(g, id, k, weakest, s);
      SuccessMeansHealthyFrom(g, threshold, id, depth, k + 1, Decayed(confidence, g[d].confidence), Weaker(weakest, s));
    }
  }

  lemma AllHealthySplits(g: Graph, threshold: real, id: NodeId)
    ensures AllHealthy(g, threshold, id) <==>
      Healthy(g, threshold, id) &&
      forall d :: d in g[id].dependencies ==> AllHealthy(g, threshold, d)
  {
    ReachesSelf(g, id);
    if AllHealthy(g, threshold, id) {
      forall d, u | d in g[id].dependencies && Reaches(g, d, u)
        ensures Healthy(g, threshold, u)
      {
        ReachesByEdge(g, id, d);
        ReachesTransitive(g, id, d, u);
      }
    }
    if Healthy(g, threshold, id) && forall d :: d in g[id].dependencies ==> AllHealthy(g, threshold, d) {
      forall u | Reaches(g, id, u)
        ensures Healthy(g, threshold, u)
      {
        var b := ReachesFirstStep(g, id, u);
      }
    }
  }

  lemma ProductStep(a: real, p: real, c: real)
    ensures Decayed(Decayed(a, p), c) == Decayed(a, Decayed(p, c))
  {
  }

  /** A reported violation is a true statement about a reachable node. */
  ghost predicate Witnessed(g: Graph, threshold: real, root: NodeId, v: EpistemicViolation) {
    && Reaches(g, root, v.id)
    && match v
       case MissingDependency(u) => u !in g
       case HorizonExceeded(u) => u in g && g[u].state == Unverifiable
       case ConfidenceDecay(u, score, t) =>
         u in g && t == threshold && score == CompoundConfidence(g, u) && score < threshold
  }

  lemma {:induction false} ViolationIsWitnessed(g: Graph, threshold: real, id: NodeId, depth: nat)
    requires var r := Bounded(g, threshold, id, depth); r.Some? && r.value.Err?
    ensures Witnessed(g, threshold, id, Bounded(g, threshold, id, depth).value.violation)
    decreases depth, 1, 0
  {
    ReachesSelf(g, id);
    if id in g && g[id].state != Unverifiable {
      assert g[id].confidence == Decayed(g[id].confidence, Product(g, []));
      ViolationFrom(g, threshold, id, depth - 1, 0, g[id].confidence, g[id].state);
    }
  }

  lemma {:induction false} ViolationFrom(g: Graph, threshold: real, id: NodeId, depth: nat, k: nat,
                                         confidence: real, weakest: EpistemicState)
    requires id in g && k <= |g[id].dependencies|
    requires confidence == Decayed(g[id].confidence, Product(g, g[id].dependencies[..k]))
    requires var r := BoundedFrom(g, threshold, id, depth, k, confidence, weakest); r.Some? && r.value.Err?
    ensures Witnessed(g, threshold, id, BoundedFrom(g, threshold, id, depth, k, confidence, weakest).value.violation)
    decreases depth, 2, |g[id].dependencies| - k
  {
    var deps := g[id].dependencies;
    if k == |deps| {
      assert deps[..k] == deps;
      ReachesSelf(g, id);
    } else {
      var d := deps[k];
      match Bounded(g, threshold, d, depth).value
      case Err(v) =>
        ViolationIsWitnessed(g, threshold, d, depth);
        ReachesByEdge(g, id, d);
        ReachesTransitive(g, id, d, v.id);
      case Ok(s) =>
        assert deps[..k + 1][..k] == deps[..k];
        ProductStep(g[id].confidence, Product(g, deps[..k]), g[d].confidence);
        ViolationFrom(g, threshold, id, depth, k + 1, Decayed(confidence, g[d].confidence), Weaker(weakest, s));
    }
  }

  /** Whenever the evaluation returns: it succeeds exactly when every reachable node is
      registered, verifiable and confident enough, then yields the weakest state of the whole
      reachable set, and otherwise reports a reachable node that is truly at fault. */
  lemma OutcomeByReachability(g: Graph, threshold: real, id: NodeId)
    requires Terminates(g, threshold, id)
    ensures var r := Result(g, threshold, id);
      && (r.Ok? <==> AllHealthy(g, threshold, id))
      && (r.Ok? ==> IsWeakest(g, id, r.state))
      && (r.Err? ==> Witnessed(g, threshold, id, r.violation))
  {
    var depth := LeastDepth(g, threshold, id);
    match Result(g, threshold, id)
    case Ok(s) => SuccessMeansHealthy(g, threshold, id, depth);
    case Err(v) => ViolationIsWitnessed(g, threshold, id, depth);
  }

  // ---------------------------------------------------------------- when it returns

  /** Without a reachable cycle a depth above the height is enough. */
  lemma {:induction false} AcyclicTerminates(g: Graph, threshold: real, id: NodeId, depth: nat)
    requires AcyclicFrom(g, id) && Height(g, id) < depth
    ensures Bounded(g, threshold, id, depth).Some?
    decreases depth, 1, 0
  {
    if id in g && g[id].state != Unverifiable {
      AcyclicTerminatesFrom(g, threshold, id, depth - 1, 0, g[id].confidence, g[id].state);
    }
  }

  lemma {:induction false} AcyclicTerminatesFrom(g: Graph, threshold: real, id: NodeId, depth: nat, k: nat,
                                                 confidence: real, weakest: EpistemicState)
    requires AcyclicFrom(g, id) && id in g && k <= |g[id].dependencies| && Height(g, id) <= depth
    ensures BoundedFrom(g, threshold, id, depth, k, confidence, weakest).Some?
    decreases depth, 2, |g[id].dependencies| - k
  {
    if k < |g[id].dependencies| {
      var d := g[id].dependencies[k];
      EdgeLowersHeight(g, id, d);
      AcyclicTerminates(g, threshold, d, depth);
      match Bounded(g, threshold, d, depth).value
      case Err(v) =>
      case Ok(s) =>
        AcyclicTerminatesFrom(g, threshold, id, depth, k + 1, Decayed(confidence, g[d].confidence), Weaker(weakest, s));
    }
  }

  ghost predicate Succeeds(g: Graph, threshold: real, id: NodeId, depth: nat) {
    var r := Bounded(g, threshold, id, depth); r.Some? && r.value.Ok?
  }

  lemma {:induction false} SuccessPassesToDependency(g: Graph, threshold: real, id: NodeId, d: NodeId, depth: nat)
    requires Succeeds(g, threshold, id, depth) && Edge(g, id, d)
    ensures Succeeds(g, threshold, d, depth - 1)
  {
    var j :| 0 <= j < |g[id].dependencies| && g[id].dependencies[j] == d;
    SuccessFrom(g, threshold, id, depth - 1, 0, g[id].confidence, g[id].state, j);
  }

  lemma {:induction false} SuccessFrom(g: Graph, threshold: real, id: NodeId, depth: nat, k: nat,
                                       confidence: real, weakest: EpistemicState, j: nat)
    requires id in g && k <= j < |g[id].dependencies|
    requires var r := BoundedFrom(g, threshold, id, depth, k, confidence, weakest); r.Some? && r.value.Ok?
    ensures Succeeds(g, threshold, g[id].dependencies[j], depth)
    decreases j - k
  {
    if k < j {
      var d := g[id].dependencies[k];
      var s := Bounded(g, threshold, d, depth).value.state;
      SuccessFrom(g, threshold, id, depth, k + 1, Decayed(confidence, g[d].confidence), Weaker(weakest, s), j);
    }
  }

  lemma {:induction false} SuccessAlongPath(g: Graph, threshold: real, p: seq<NodeId>, depth: nat)
    requires IsPath(g, p) && Succeeds(g, threshold, p[0], depth)
    ensures |p| <= depth && Succeeds(g, threshold, p[|p| - 1], depth - (|p| - 1))
    decreases |p|
  {
    if |p| > 1 {
      assert Edge(g, p[0], p[1]);
      SuccessPassesToDependency(g, threshold, p[0], p[1], depth);
      assert forall i :: 0 <= i < |p[1..]| - 1 ==> Edge(g, p[i + 1], p[i + 2]) ==> Edge(g, p[1..][i], p[1..][i + 1]);
      SuccessAlongPath(g, threshold, p[1..], depth - 1);
    }
  }

  lemma {:induction false} NoSuccessOnCycle(g: Graph, threshold: real, u: NodeId, depth: nat)
    requires OnCycle(g, u)
    ensures !Succeeds(g, threshold, u, depth)
    decreases depth
  {
    if Succeeds(g, threshold, u, depth) {
      var v :| Edge(g, u, v) && Reaches(g, v, u);
      var p :| PathBetween(g, p, v, u);
      SuccessPassesToDependency(g, threshold, u, v, depth);
      SuccessAlongPath(g, threshold, p, depth - 1);
      NoSuccessOnCycle(g, threshold, u, depth - |p|);
    }
  }

  lemma SuccessMeansAcyclic(g: Graph, threshold: real, root: NodeId, depth: nat)
    requires Succeeds(g, threshold, root, depth)
    ensures AcyclicFrom(g, root)
  {
    forall u | Reaches(g, root, u)
      ensures !OnCycle(g, u)
    {
      var p :| PathBetween(g, p, root, u);
      SuccessAlongPath(g, threshold, p, depth);
      if OnCycle(g, u) {
        NoSuccessOnCycle(g, threshold, u, depth - (|p| - 1));
      }
    }
  }

  /** On every graph, cyclic or not: the evaluation returns success exactly when no cycle is
      reachable and every reachable node is healthy. */
  lemma EvaluationSucceedsExactly(g: Graph, threshold: real, root: NodeId)
    ensures Terminates(g, threshold, root) && Result(g, threshold, root).Ok? <==>
            AcyclicFrom(g, root) && AllHealthy(g, threshold, root)
  {
    if AcyclicFrom(g, root) {
      AcyclicTerminates(g, threshold, root, Height(g, root) + 1);
    }
    if Terminates(g, threshold, root) {
      OutcomeByReachability(g, threshold, root);
      if Result(g, threshold, root).Ok? {
        SuccessMeansAcyclic(g, threshold, root, LeastDepth(g, threshold, root));
      }
    }
  }

  // ---------------------------------------------------------------- registration

  /** Registering or replacing a node changes nothing for the nodes that do not reach it. */
  lemma {:induction false} RegistrationIsLocal(g: Graph, threshold: real, node: CausalNode, id: NodeId, depth: nat)
    requires !Reaches(g, id, node.id)
    ensures Bounded(g[node.id := node], threshold, id, depth) == Bounded(g, threshold, id, depth)
    decreases depth, 1, 0
  {
    ReachesSelf(g, id);
    if depth > 0 && id in g && g[id].state != Unverifiable {
      RegistrationIsLocalFrom(g, threshold, node, id, depth - 1, 0, g[id].confidence, g[id].state);
    }
  }

  lemma {:induction false} RegistrationIsLocalFrom(g: Graph, threshold: real, node: CausalNode, id: NodeId,
                                                   depth: nat, k: nat, confidence: real, weakest: EpistemicState)
    requires id in g && id != node.id && !Reaches(g, id, node.id) && k <= |g[id].dependencies|
    ensures BoundedFrom(g[node.id := node], threshold, id, depth, k, confidence, weakest)
         == BoundedFrom(g, threshold, id, depth, k, confidence, weakest)
    decreases depth, 2, |g[id].dependencies| - k
  {
    if k < |g[id].dependencies| {
      var d := g[id].dependencies[k];
      ReachesByEdge(g, id, d);
      if Reaches(g, d, node.id) {
        ReachesTransitive(g, id, d, node.id);
      }
      ReachesSelf(g, d);
      RegistrationIsLocal(g, threshold, node, d, depth);
      match Bounded(g, threshold, d, depth)
      case None =>
      case Some(Err(v)) =>
      case Some(Ok(s)) =>
        RegistrationIsLocalFrom(g, threshold, node, id, depth, k + 1,
                                Decayed(confidence, g[d].confidence), Weaker(weakest, s));
    }
  }
}
