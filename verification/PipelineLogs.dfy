/** What the last hash of each log of the wired pipeline commits to: every field of every record
    of that log, hashed or not. */
module PipelineLogs {
  import opened Bytes
  import opened HashChain
  import opened HealthAggregator
  import opened MomentumTracker
  import opened EpochReport
  import opened AlertClassifier
  import opened SlaTracker
  import opened EpochComparator
  import opened CapacityPlanner
  import opened EpochPipeline
  import Dashboard
  import PipelineLedger
  import TrendAnalyzer

  // ---------------------------------------------------------------- the encodings tell apart

  lemma VectorsTellApart()
    ensures TellsApart(VectorBody, (_: HealthVector) => true)
  {
    forall v, w | VectorBody(v) == VectorBody(w)
      ensures v == w
    {
      VectorBodyInjective(v, w);
    }
  }

  lemma MomentumTellsApart()
    ensures TellsApart(MomentumBody, MomentumFits)
  {
    forall r, s | MomentumFits(r) && MomentumFits(s) && MomentumBody(r) == MomentumBody(s)
      ensures r == s
    {
      MomentumBodyInjective(r, s);
    }
  }

  lemma ReportsTellApart()
    ensures TellsApart(ReportBody, Fits)
  {
    forall a, b | Fits(a) && Fits(b) && ReportBody(a) == ReportBody(b)
      ensures a == b
    {
      ReportBodyInjective(a, b);
    }
  }

  lemma AlertsTellApart()
    ensures TellsApart(AlertBody, (_: AlertRecord) => true)
  {
    forall a, b | AlertBody(a) == AlertBody(b)
      ensures a == b
    {
      AlertBodyInjective(a, b);
    }
  }

  lemma SlasTellApart()
    ensures TellsApart(SlaBody, SlaFits)
  {
    forall s, t | SlaFits(s) && SlaFits(t) && SlaBody(s) == SlaBody(t)
      ensures s == t
    {
      SlaBodyInjective(s, t);
    }
  }

  lemma DeltasTellApart()
    ensures TellsApart(DeltaBody, DeltaFits)
  {
    forall a, b | DeltaFits(a) && DeltaFits(b) && DeltaBody(a) == DeltaBody(b)
      ensures a == b
    {
      DeltaBodyInjective(a, b);
    }
  }

  lemma TrendsTellApart()
    ensures TellsApart(TrendAnalyzer.TrendBody, TrendAnalyzer.TrendFits)
  {
    forall s, t | TrendAnalyzer.TrendFits(s) && TrendAnalyzer.TrendFits(t)
                  && TrendAnalyzer.TrendBody(s) == TrendAnalyzer.TrendBody(t)
      ensures s == t
    {
      TrendAnalyzer.TrendBodyInjective(s, t);
    }
  }

  lemma FramesTellApart()
    ensures TellsApart(Dashboard.FrameBody, (_: Dashboard.DashboardFrame) => true)
  {
    forall f, g | Dashboard.FrameBody(f) == Dashboard.FrameBody(g)
      ensures f == g
    {
      Dashboard.FrameBodyInjective(f, g);
    }
  }

  lemma ProjectionsTellApart()
    ensures TellsApart(ProjectionBody, ProjectionFits)
  {
    forall p, q | ProjectionFits(p) && ProjectionFits(q) && ProjectionBody(p) == ProjectionBody(q)
      ensures p == q
    {
      ProjectionBodyInjective(p, q);
    }
  }

  // ---------------------------------------------------------------- what the logs hold fits

  lemma MomentumRecordsFit(xs: seq<Observed>, i: nat)
    requires i < |xs|
    ensures MomentumFits(RecordsOf(xs)[i])
  {
    var ss := Scores(xs);
    assert RecordsOf(xs)[i] == RecordAt(xs, i) && 0 <= ss[i] <= 3 && 0 <= ss[WindowStart(i, MOMENTUM_WINDOW)] <= 3;
  }

  lemma TrendsFit(ds: seq<Delta>, i: nat)
    requires i < |ds|
    ensures TrendAnalyzer.TrendFits(TrendAnalyzer.TrendsOf(ds)[i])
  {
    assert TrendAnalyzer.TrendsOf(ds)[i] == TrendAnalyzer.TrendAt(ds, i);
    assert |TrendAnalyzer.WindowAt(ds, i)| <= TrendAnalyzer.TREND_WINDOW;
  }

  lemma ProjectionsFit(rs: seq<Report>, i: nat)
    requires i < |rs|
    ensures ProjectionFits(ProjectionsOf(rs)[i])
  {
    ProjectionOfWindowFits(rs[i].epoch, WindowAt(rs, i));
  }

  // ---------------------------------------------------------------- every log is bound

  /** The last hash of the vectors, the momentum records or the reports of two histories pins the
      whole log. */
  lemma InputLogsAreBound(sha: Hash, os: seq<Observation>, qs: seq<Observation>)
    ensures Binds(sha, VectorBody, Vectors(os), Vectors(qs))
    ensures Binds(sha, MomentumBody, RecordsOf(ObservedBy(os)), RecordsOf(ObservedBy(qs)))
    ensures Binds(sha, ReportBody, Reports(os), Reports(qs))
  {
    VectorsTellApart();
    ContentsAreBound(sha, VectorBody, _ => true, Vectors(os), Vectors(qs));
    MomentumIsBound(sha, ObservedBy(os), ObservedBy(qs));
    ReportsAreBound(sha, os, qs);
  }

  lemma MomentumIsBound(sha: Hash, xs: seq<Observed>, ys: seq<Observed>)
    ensures Binds(sha, MomentumBody, RecordsOf(xs), RecordsOf(ys))
  {
    MomentumTellsApart();
    forall i | 0 <= i < |xs|
      ensures MomentumFits(RecordsOf(xs)[i])
    {
      MomentumRecordsFit(xs, i);
    }
    forall i | 0 <= i < |ys|
      ensures MomentumFits(RecordsOf(ys)[i])
    {
      MomentumRecordsFit(ys, i);
    }
    ContentsAreBound(sha, MomentumBody, MomentumFits, RecordsOf(xs), RecordsOf(ys));
  }

  lemma ReportsAreBound(sha: Hash, os: seq<Observation>, qs: seq<Observation>)
    ensures Binds(sha, ReportBody, Reports(os), Reports(qs))
  {
    ReportsTellApart();
    forall i | 0 <= i < |os|
      ensures Fits(Reports(os)[i])
    {
      PipelineLedger.ReportsFit(os, i);
    }
    forall i | 0 <= i < |qs|
      ensures Fits(Reports(qs)[i])
    {
      PipelineLedger.ReportsFit(qs, i);
    }
    ContentsAreBound(sha, ReportBody, Fits, Reports(os), Reports(qs));
  }

  /** So does the last hash of each log that the reports feed. */
  lemma VerdictLogsAreBound(sha: Hash, a: seq<Report>, b: seq<Report>)
    ensures Binds(sha, AlertBody, AlertsOf(a), AlertsOf(b))
    ensures Binds(sha, SlaBody, SlasOf(a), SlasOf(b))
    ensures Binds(sha, DeltaBody, DeltasOf(a), DeltasOf(b))
    ensures Binds(sha, TrendAnalyzer.TrendBody,
                  TrendAnalyzer.TrendsOf(DeltasOf(a)), TrendAnalyzer.TrendsOf(DeltasOf(b)))
    ensures Binds(sha, Dashboard.FrameBody, FramesOf(a), FramesOf(b))
    ensures Binds(sha, ProjectionBody, ProjectionsOf(a), ProjectionsOf(b))
  {
    AlertsTellApart();
    ContentsAreBound(sha, AlertBody, _ => true, AlertsOf(a), AlertsOf(b));
    FramesTellApart();
    ContentsAreBound(sha, Dashboard.FrameBody, _ => true, FramesOf(a), FramesOf(b));
    SlasAreBound(sha, a, b);
    DeltasAreBound(sha, a, b);
    TrendsAreBound(sha, DeltasOf(a), DeltasOf(b));
    ProjectionsAreBound(sha, a, b);
  }

  lemma SlasAreBound(sha: Hash, a: seq<Report>, b: seq<Report>)
    ensures Binds(sha, SlaBody, SlasOf(a), SlasOf(b))
  {
    SlasTellApart();
    ContentsAreBound(sha, SlaBody, SlaFits, SlasOf(a), SlasOf(b));
  }

  lemma DeltasAreBound(sha: Hash, a: seq<Report>, b: seq<Report>)
    ensures Binds(sha, DeltaBody, DeltasOf(a), DeltasOf(b))
  {
    DeltasTellApart();
    ContentsAreBound(sha, DeltaBody, DeltaFits, DeltasOf(a), DeltasOf(b));
  }

  lemma TrendsAreBound(sha: Hash, ds: seq<Delta>, es: seq<Delta>)
    ensures Binds(sha, TrendAnalyzer.TrendBody, TrendAnalyzer.TrendsOf(ds), TrendAnalyzer.TrendsOf(es))
  {
    TrendsTellApart();
    forall i | 0 <= i < |ds|
      ensures TrendAnalyzer.TrendFits(TrendAnalyzer.TrendsOf(ds)[i])
    {
      TrendsFit(ds, i);
    }
    forall i | 0 <= i < |es|
      ensures TrendAnalyzer.TrendFits(TrendAnalyzer.TrendsOf(es)[i])
    {
      TrendsFit(es, i);
    }
    ContentsAreBound(sha, TrendAnalyzer.TrendBody, TrendAnalyzer.TrendFits,
                     TrendAnalyzer.TrendsOf(ds), TrendAnalyzer.TrendsOf(es));
  }

  lemma ProjectionsAreBound(sha: Hash, a: seq<Report>, b: seq<Report>)
    ensures Binds(sha, ProjectionBody, ProjectionsOf(a), ProjectionsOf(b))
  {
    ProjectionsTellApart();
    forall i | 0 <= i < |a|
      ensures ProjectionFits(ProjectionsOf(a)[i])
    {
      ProjectionsFit(a, i);
    }
    forall i | 0 <= i < |b|
      ensures ProjectionFits(ProjectionsOf(b)[i])
    {
      ProjectionsFit(b, i);
    }
    ContentsAreBound(sha, ProjectionBody, ProjectionFits, ProjectionsOf(a), ProjectionsOf(b));
  }
}
