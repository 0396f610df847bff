/** Per-epoch health: the compaction grade, the constitutional condition and their joint
    condition. */
module HealthAggregator {
  import opened Wrappers
  import opened Bytes
  import opened HashChain

  datatype OverallCondition = Optimal | Good | Caution | Alert | Emergency
  {
    function AsByte(): Byte {
      match this
      case Optimal => 0
      case Good => 1
      case Caution => 2
      case Alert => 3
      case Emergency => 4
    }
  }

  datatype Grade = Healthy | Moderate | Elevated | Failing
  {
    function AsByte(): Byte {
      match this
      case Healthy => 0
      case Moderate => 1
      case Elevated => 2
      case Failing => 3
    }
  }

  datatype JointCondition = JointOptimal | JointNominal | JointDegraded | JointCritical
  {
    /** The ordinal used as a score; larger is worse. */
    function Score(): (n: Byte)
      ensures n <= 3
    {
      match this
      case JointOptimal => 0
      case JointNominal => 1
      case JointDegraded => 2
      case JointCritical => 3
    }
  }

  const PRUNE_ALERT_THRESHOLD: nat := 1000

  function ClassifyGrade(chainsValid: bool, totalPruned: U64): Grade {
    match (chainsValid, totalPruned >= PRUNE_ALERT_THRESHOLD)
    case (true, false) => Healthy
    case (true, true) => Moderate
    case (false, false) => Elevated
    case (false, true) => Failing
  }

  function FromAxes(grade: Grade, cond: OverallCondition): JointCondition {
    if grade == Failing || cond == Emergency then JointCritical
    else if grade == Elevated || cond == Alert then JointDegraded
    else if grade == Healthy && cond == Optimal then JointOptimal
    else JointNominal
  }

  /** Broken chains are never better than degraded, whatever the constitution says, and the
      joint condition is critical only for an emergency or for broken chains under heavy
      pruning. */
  lemma JointConditionBounds(chainsValid: bool, totalPruned: U64, cond: OverallCondition)
    ensures var joint := FromAxes(ClassifyGrade(chainsValid, totalPruned), cond);
      && (!chainsValid ==> joint.Score() >= 2)
      && (joint == JointCritical <==> cond == Emergency || (!chainsValid && totalPruned >= PRUNE_ALERT_THRESHOLD))
      && (joint == JointOptimal <==> chainsValid && totalPruned < PRUNE_ALERT_THRESHOLD && cond == Optimal)
      && (joint.Score() <= 1 <==> chainsValid && cond != Alert && cond != Emergency)
  {
  }

  /** The grade "elevated" is described as broken chains or more than the threshold pruned, short
      of both, which is described as the worst grade. The code meets that except where sound
      chains come with more than the threshold, graded one step better, and where broken chains
      come with the threshold itself, graded one step worse. */
  lemma ElevatedAsDescribed(chainsValid: bool, totalPruned: U64)
    ensures var heavy := totalPruned > PRUNE_ALERT_THRESHOLD;
      (ClassifyGrade(chainsValid, totalPruned) == Elevated <==> (!chainsValid || heavy) && (chainsValid || !heavy))
      <==> !(chainsValid && heavy) && !(!chainsValid && totalPruned == PRUNE_ALERT_THRESHOLD)
    ensures (ClassifyGrade(chainsValid, totalPruned) == Failing <==>
               !chainsValid && totalPruned > PRUNE_ALERT_THRESHOLD)
            <==> !(!chainsValid && totalPruned == PRUNE_ALERT_THRESHOLD)
    ensures ClassifyGrade(true, 1001) == Moderate && ClassifyGrade(false, 1000) == Failing
  {
  }

  /** A nominal joint condition is described as a grade up to moderate with a constitution up to
      good, short of both being the best. The code meets that except for sound chains under a
      constitution of caution, which it also calls nominal. */
  lemma NominalAsDescribed(chainsValid: bool, totalPruned: U64, cond: OverallCondition)
    ensures var grade := ClassifyGrade(chainsValid, totalPruned);
      (FromAxes(grade, cond) == JointNominal <==>
         grade.AsByte() <= 1 && cond.AsByte() <= 1 && !(grade == Healthy && cond == Optimal))
      <==> !(chainsValid && cond == Caution)
    ensures FromAxes(ClassifyGrade(true, 0), Caution) == JointNominal
  {
  }

  datatype HealthVector = HealthVector(
    epoch: U64, grade: Grade, cond: OverallCondition, joint: JointCondition, totalPruned: U64, chainsValid: bool)

  function VectorBody(v: HealthVector): ByteString {
    Be8(v.epoch) + [v.grade.AsByte(), v.cond.AsByte(), v.joint.Score()] + Be8(v.totalPruned) + [Flag(v.chainsValid)]
  }

  /** A fixed-width encoding: it determines every field of the vector. */
  lemma VectorBodyInjective(v: HealthVector, w: HealthVector)
    requires VectorBody(v) == VectorBody(w)
    ensures v == w
  {
    var v1 := [v.grade.AsByte(), v.cond.AsByte(), v.joint.Score()];
    var w1 := [w.grade.AsByte(), w.cond.AsByte(), w.joint.Score()];
    SplitEqual(Be8(v.epoch) + v1 + Be8(v.totalPruned), Be8(w.epoch) + w1 + Be8(w.totalPruned),
               [Flag(v.chainsValid)], [Flag(w.chainsValid)]);
    SplitEqual(Be8(v.epoch) + v1, Be8(w.epoch) + w1, Be8(v.totalPruned), Be8(w.totalPruned));
    SplitEqual(Be8(v.epoch), Be8(w.epoch), v1, w1);
    Be8Injective(v.epoch, w.epoch);
    Be8Injective(v.totalPruned, w.totalPruned);
    OneByte(Flag(v.chainsValid), Flag(w.chainsValid));
    ThreeBytes(v.grade.AsByte(), v.cond.AsByte(), v.joint.Score(), w.grade.AsByte(), w.cond.AsByte(), w.joint.Score());
  }

  class CompactionHealthLog {
    const sha: Hash
    var vectors: seq<Chained<HealthVector>>

    constructor (sha: Hash)
      ensures this.sha == sha && vectors == []
    {
      this.sha := sha;
      vectors := [];
    }

    method Record(epoch: U64, chainsValid: bool, totalPruned: U64, cond: OverallCondition)
      returns (v: Chained<HealthVector>)
      modifies this
      ensures vectors == old(vectors) + [v] && v == Next(sha, VectorBody, old(vectors), v.content)
      ensures v.content.epoch == epoch && v.content.cond == cond
      ensures v.content.totalPruned == totalPruned && v.content.chainsValid == chainsValid
      ensures v.content.grade == ClassifyGrade(chainsValid, totalPruned)
      ensures v.content.joint == FromAxes(v.content.grade, cond)
    {
      var grade := ClassifyGrade(chainsValid, totalPruned);
      var content := HealthVector(epoch, grade, cond, FromAxes(grade, cond), totalPruned, chainsValid);
      v := Next(sha, VectorBody, vectors, content);
      vectors := vectors + [v];
    }

    method VerifyChain() returns (valid: bool, broken: Option<nat>)
      ensures valid <==> LogHolds(sha, VectorBody, vectors)
      ensures valid ==> broken == None
      ensures !valid ==> broken.Some? && FirstBroken(sha, Genesis(), LinksOf(VectorBody, vectors), broken.value)
    {
      valid, broken := VerifyLog(sha, VectorBody, vectors);
    }
  }
}
