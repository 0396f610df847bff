/** Causal dependency graphs: nodes with confidences and epistemic states, reachability along
    dependencies, and what makes a node healthy. Confidences are reals. */
module CausalGraph {

  datatype EpistemicState = Verified | Inferred | Speculative | Unverifiable
  {
    /** The position in the source's ordering; larger is weaker. */
    function Weakness(): nat {
      match this
      case Verified => 0
      case Inferred => 1
      case Speculative => 2
      case Unverifiable => 3
    }
  }

  type NodeId = nat

  datatype CausalNode = CausalNode(
    id: NodeId, state: EpistemicState, confidence: real, dependencies: seq<NodeId>)

  type Graph = map<NodeId, CausalNode>

  datatype EpistemicViolation =
    | MissingDependency(id: NodeId)
    | HorizonExceeded(id: NodeId)
    | ConfidenceDecay(id: NodeId, score: real, threshold: real)

  datatype Outcome = Ok(state: EpistemicState) | Err(violation: EpistemicViolation)

  function Weaker(a: EpistemicState, b: EpistemicState): EpistemicState {
    if b.Weakness() > a.Weakness() then b else a
  }

  /** Multiplicative decay of a confidence across one dependency. */
  function Decayed(confidence: real, factor: real): real {
    confidence * factor
  }

  // ---------------------------------------------------------------- reachability

  predicate Edge(g: Graph, a: NodeId, b: NodeId) {
    a in g && b in g[a].dependencies
  }

  predicate IsPath(g: Graph, p: seq<NodeId>) {
    |p| > 0 && forall i :: 0 <= i < |p| - 1 ==> Edge(g, p[i], p[i + 1])
  }

  predicate PathBetween(g: Graph, p: seq<NodeId>, a: NodeId, b: NodeId) {
    IsPath(g, p) && p[0] == a && p[|p| - 1] == b
  }

  ghost predicate Reaches(g: Graph, a: NodeId, b: NodeId) {
    exists p :: PathBetween(g, p, a, b)
  }

  ghost predicate OnCycle(g: Graph, u: NodeId) {
    exists v :: Edge(g, u, v) && Reaches(g, v, u)
  }

  /** No cycle can be reached from `a`. */
  ghost predicate AcyclicFrom(g: Graph, a: NodeId) {
    forall u :: Reaches(g, a, u) ==> !OnCycle(g, u)
  }

  lemma ReachesSelf(g: Graph, a: NodeId)
    ensures Reaches(g, a, a)
  {
    assert PathBetween(g, [a], a, a);
  }

  lemma ReachesTransitive(g: Graph, a: NodeId, b: NodeId, c: NodeId)
    requires Reaches(g, a, b) && Reaches(g, b, c)
    ensures Reaches(g, a, c)
  {
    var p :| PathBetween(g, p, a, b);
    var q :| PathBetween(g, q, b, c);
    var r := p + q[1..];
    forall i | 0 <= i < |r| - 1
      ensures Edge(g, r[i], r[i + 1])
    {
      if i < |p| - 1 {
        assert Edge(g, p[i], p[i + 1]);
      } else {
        assert Edge(g, q[i - |p| + 1], q[i - |p| + 2]);
      }
    }
    assert PathBetween(g, r, a, c);
  }

  lemma ReachesByEdge(g: Graph, a: NodeId, b: NodeId)
    requires Edge(g, a, b)
    ensures Reaches(g, a, b)
  {
    assert PathBetween(g, [a, b], a, b);
  }

  /** Every node reached from `a` is `a` itself or is reached from one of its dependencies. */
  lemma ReachesFirstStep(g: Graph, a: NodeId, c: NodeId) returns (b: NodeId)
    requires Reaches(g, a, c)
    ensures a == c || (Edge(g, a, b) && Reaches(g, b, c))
  {
    var p :| PathBetween(g, p, a, c);
    b := a;
    if |p| > 1 {
      b := p[1];
      assert Edge(g, p[0], p[1]);
      forall i | 0 <= i < |p[1..]| - 1
        ensures Edge(g, p[1..][i], p[1..][i + 1])
      {
        assert Edge(g, p[i + 1], p[i + 2]);
      }
      assert PathBetween(g, p[1..], b, c);
    }
  }

  /** The registered nodes that `a` reaches, itself included. */
  ghost function ReachSet(g: Graph, a: NodeId): set<NodeId> {
    set u | u in g && Reaches(g, a, u)
  }

  /** The measure on which evaluation terminates. */
  ghost function Height(g: Graph, a: NodeId): nat {
    |ReachSet(g, a)|
  }

  lemma ProperSubsetIsSmaller(a: set<NodeId>, b: set<NodeId>, x: NodeId)
    requires a <= b && x in b && x !in a
    ensures |a| < |b|
  {
    SubsetIsNotLarger(a, b - {x});
  }

  lemma SubsetIsNotLarger(a: set<NodeId>, b: set<NodeId>)
    requires a <= b
    ensures |a| <= |b|
  {
    if a != {} {
      var x :| x in a;
      SubsetIsNotLarger(a - {x}, b - {x});
    }
  }

  /** Following a dependency keeps the graph acyclic and lowers the measure. */
  lemma EdgeLowersHeight(g: Graph, a: NodeId, b: NodeId)
    requires AcyclicFrom(g, a) && Edge(g, a, b)
    ensures AcyclicFrom(g, b)
    ensures !Reaches(g, b, a)
    ensures Height(g, b) < Height(g, a)
  {
    ReachesSelf(g, a);
    ReachesByEdge(g, a, b);
    forall u | Reaches(g, b, u)
      ensures Reaches(g, a, u)
    {
      ReachesTransitive(g, a, b, u);
    }
    assert !OnCycle(g, a);
    ProperSubsetIsSmaller(ReachSet(g, b), ReachSet(g, a), a);
  }

  // ---------------------------------------------------------------- specification

  function ConfidenceOf(g: Graph, id: NodeId): real {
    if id in g then g[id].confidence else 1.0
  }

  /** The product of the confidences of the listed nodes, repetitions included. */
  function Product(g: Graph, ids: seq<NodeId>): real {
    if ids == [] then 1.0
    else Decayed(Product(g, ids[..|ids| - 1]), ConfidenceOf(g, ids[|ids| - 1]))
  }

  function CompoundConfidence(g: Graph, id: NodeId): real
    requires id in g
  {
    Decayed(g[id].confidence, Product(g, g[id].dependencies))
  }

  predicate Healthy(g: Graph, threshold: real, id: NodeId) {
    id in g && g[id].state != Unverifiable && CompoundConfidence(g, id) >= threshold
  }

  ghost predicate AllHealthy(g: Graph, threshold: real, a: NodeId) {
    forall u :: Reaches(g, a, u) ==> Healthy(g, threshold, u)
  }

  /** `s` is the weakest state among the nodes reached from `a`, and one of them has it. */
  ghost predicate IsWeakest(g: Graph, a: NodeId, s: EpistemicState) {
    && (exists u :: Reaches(g, a, u) && u in g && g[u].state == s)
    && (forall u :: Reaches(g, a, u) && u in g ==> g[u].state.Weakness() <= s.Weakness())
  }
}
