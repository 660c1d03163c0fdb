/** What "Running" on the AppSet means for the Deployments of all the clusters: the worker's status,
    written into each AdvDeployment, meets the master's aggregation. */
module EndToEnd {
  import opened Prelude
  import opened Api
  import W = Worker
  import SW = StatusWrite
  import M = AppSetStatus
  import Version
  import PodVersions

  /** What one cluster's status was computed from: the listed workloads and the owner list. */
  datatype Source = Source(workloads: seq<W.Workload>, owners: seq<string>)

  /** The collected AdvDeployment carries the status and figures its worker computed. */
  predicate ReportedFrom(a: M.ClusterAdv, src: Source) {
    W.Summary(a.status, a.desired, a.available, a.unavailable) == W.Summarise(W.TallyOf(OwnedBy(src)))
  }

  /** The collected AdvDeployment carries the version text its worker computed. */
  predicate VersionFrom(a: M.ClusterAdv, src: Source) {
    a.version == PodVersions.WorkerVersion(PodVersions.VersionsOf(W.PodsOf(OwnedBy(src))))
  }

  // ---------------------------------------------------------------- from a worker run to the master

  /** One run of a cluster's worker, as far as its status goes. */
  datatype WorkerRun = WorkerRun(inp: W.Inputs, log: seq<SW.Event>, history: SW.History, horizon: nat)

  /** The run stored its status, or found it stored. */
  predicate Stores(r: WorkerRun) { W.StatusStored(r.inp, r.log, r.history, r.horizon) }

  /** The list it chose, if any, and the owners it had. */
  function SourceOf(r: WorkerRun): Source {
    Source(if W.Chosen(r.inp).Some? then W.Chosen(r.inp).value else [], W.OwnersOf(r.inp))
  }

  /** The stored AdvDeployment its last call left or found. */
  function StoredBy(r: WorkerRun): SW.Content
    requires Stores(r)
  {
    r.history[SW.LastAt(r.log)].value.content
  }

  /** What the master reads of a stored AdvDeployment. */
  predicate ReadFrom(a: M.ClusterAdv, content: SW.Content) {
    && a.generation == content.generation && a.observedGeneration == content.observedGeneration
    && a.status == content.aggr.status && a.version == content.aggr.version
    && a.desired == content.aggr.desired && a.available == content.aggr.available
    && a.unavailable == content.aggr.unavailable
  }

  /** Reading what a worker run stored, the master gets that run's status, figures and version. */
  lemma StoredIsReported(a: M.ClusterAdv, r: WorkerRun)
    requires Stores(r) && ReadFrom(a, StoredBy(r))
    ensures ReportedFrom(a, SourceOf(r)) && VersionFrom(a, SourceOf(r))
  {
    var src := SourceOf(r);
    assert StoredBy(r).aggr == W.StatusOf(src.workloads, src.owners);
  }

  predicate AllReportedFrom(advs: seq<M.ClusterAdv>, srcs: seq<Source>) {
    |advs| == |srcs| && forall i :: 0 <= i < |advs| ==> ReportedFrom(advs[i], srcs[i])
  }

  function OwnedBy(src: Source): seq<W.Workload> { W.Owned(src.workloads, src.owners) }

  /** All owned workloads of all collected clusters. */
  function AllOwned(srcs: seq<Source>): seq<W.Workload> {
    if srcs == [] then [] else AllOwned(srcs[..|srcs| - 1]) + OwnedBy(srcs[|srcs| - 1])
  }

  // ---------------------------------------------------------------- totals of totals

  lemma {:induction false} SumConcat(a: seq<int>, b: seq<int>)
    ensures Sum(a + b) == Sum(a) + Sum(b)
  {
    if b == [] {
      assert a + b == a;
    } else {
      var front := b[..|b| - 1];
      assert (a + b)[..|a + b| - 1] == a + front;
      SumConcat(a, front);
    }
  }

  /** One figure of a workload. */
  datatype Figure = Desired | Available | Unavailable | Updated

  function Figures(ws: seq<W.Workload>, f: Figure): seq<int32> {
    match f
    case Desired => W.Desireds(ws)
    case Available => W.Availables(ws)
    case Unavailable => W.Unavailables(ws)
    case Updated => W.Updateds(ws)
  }

  lemma FiguresConcat(a: seq<W.Workload>, b: seq<W.Workload>, f: Figure)
    ensures Figures(a + b, f) == Figures(a, f) + Figures(b, f)
  {
  }

  /** The total of a figure over all owned workloads of all clusters. */
  function Grand(srcs: seq<Source>, f: Figure): int { Sum(Figures(AllOwned(srcs), f)) }

  lemma GrandSnoc(srcs: seq<Source>, f: Figure)
    requires srcs != []
    ensures Grand(srcs, f) == Grand(srcs[..|srcs| - 1], f) + Sum(Figures(OwnedBy(srcs[|srcs| - 1]), f))
  {
    var front, last := AllOwned(srcs[..|srcs| - 1]), OwnedBy(srcs[|srcs| - 1]);
    FiguresConcat(front, last, f);
    SumConcat(Figures(front, f), Figures(last, f));
  }

  /** A running int32 total misses the sum by a multiple of 2^32. */
  lemma {:induction false} TotalOffset(xs: seq<int32>) returns (k: int)
    ensures Total32(xs) as int == Sum(xs) + k * TWO_32
  {
    if xs == [] { return 0; }
    var front, last := xs[..|xs| - 1], xs[|xs| - 1];
    k := TotalOffset(front);
    var s := Total32(front) as int + last;
    k := if s >= TWO_31 then k - 1 else if s < -TWO_31 then k + 1 else k;
  }

  lemma {:induction false} OffsetOfTotals(srcs: seq<Source>, f: Figure, reported: seq<int32>) returns (k: int)
    requires |reported| == |srcs|
    requires forall i :: 0 <= i < |srcs| ==> reported[i] == Total32(Figures(OwnedBy(srcs[i]), f))
    ensures Sum(reported) == Grand(srcs, f) + k * TWO_32
  {
    if srcs == [] { return 0; }
    var n := |srcs| - 1;
    var k0 := OffsetOfTotals(srcs[..n], f, reported[..n]);
    var k1 := TotalOffset(Figures(OwnedBy(srcs[n]), f));
    GrandSnoc(srcs, f);
    k := k0 + k1;
  }

  /** Adding up what each cluster reports gives, modulo 2^32, the total over every owned workload: a
      worker's own overflow does not matter. */
  lemma TotalsOfTotals(srcs: seq<Source>, f: Figure, reported: seq<int32>)
    requires |reported| == |srcs|
    requires forall i :: 0 <= i < |srcs| ==> reported[i] == Total32(Figures(OwnedBy(srcs[i]), f))
    ensures Wrap32(Sum(reported)) == Wrap32(Grand(srcs, f))
  {
    var k := OffsetOfTotals(srcs, f, reported);
    SameModulo(Sum(reported), Grand(srcs, f), k);
  }

  lemma SameModulo(x: int, y: int, k: int)
    requires x == y + k * TWO_32
    ensures Wrap32(x) == Wrap32(y)
  {
    ModShift(x + TWO_31, k);
  }

  lemma {:induction false} SameTotals(srcs: seq<Source>, f: Figure, g: Figure)
    requires forall i :: 0 <= i < |srcs| ==>
               Total32(Figures(OwnedBy(srcs[i]), f)) == Total32(Figures(OwnedBy(srcs[i]), g))
    ensures Wrap32(Grand(srcs, f)) == Wrap32(Grand(srcs, g))
  {
    var reported: seq<int32> := seq(|srcs|, i requires 0 <= i < |srcs| => Total32(Figures(OwnedBy(srcs[i]), f)));
    TotalsOfTotals(srcs, f, reported);
    TotalsOfTotals(srcs, g, reported);
  }

  // ---------------------------------------------------------------- Running

  /** A cluster's workloads have settled: as many available and updated as desired, none unavailable,
      every generation observed. */
  predicate Settled(src: Source) {
    var o := OwnedBy(src);
    && Total32(W.Desireds(o)) == Total32(W.Availables(o)) == Total32(W.Updateds(o))
    && Total32(W.Unavailables(o)) == 0
    && W.GenerationsEqual(o)
  }

  /** Exactly when the AppSet is reported Running: every collected AdvDeployment is observed at its
      generation, the workloads of every cluster have settled, and the replicas available over all
      owned workloads of all clusters are, modulo 2^32, the replicas asked for. */
  lemma RunningIff(s: M.Status, generation: int64, replicas: int32, advs: seq<M.ClusterAdv>, srcs: seq<Source>)
    requires s == M.StatusFor(generation, replicas, advs) && AllReportedFrom(advs, srcs)
    ensures s.status == Running <==>
      && (forall i :: 0 <= i < |advs| ==> M.UpToDate(advs[i]) && Settled(srcs[i]))
      && Wrap32(Grand(srcs, Available)) == replicas
  {
    assert M.AllRunning(advs) <==> forall i :: 0 <= i < |advs| ==> M.UpToDate(advs[i]) && Settled(srcs[i]) by {
      RunningPointwise(advs, srcs);
    }
    TotalsOfTotals(srcs, Available, M.Availables(advs));
    if M.AllRunning(advs) {
      forall i | 0 <= i < |advs| ensures M.Unavailables(advs)[i] == 0 { assert advs[i] in advs; }
      ZeroSum(M.Unavailables(advs));
    }
  }

  lemma RunningPointwise(advs: seq<M.ClusterAdv>, srcs: seq<Source>)
    requires AllReportedFrom(advs, srcs)
    ensures M.AllRunning(advs) <==> forall i :: 0 <= i < |advs| ==> M.UpToDate(advs[i]) && Settled(srcs[i])
  {
    if M.AllRunning(advs) {
      forall i | 0 <= i < |advs| ensures M.UpToDate(advs[i]) && Settled(srcs[i]) {
        assert advs[i] in advs && ReportedFrom(advs[i], srcs[i]);
      }
    }
    if forall i :: 0 <= i < |advs| ==> M.UpToDate(advs[i]) && Settled(srcs[i]) {
      forall a | a in advs ensures M.UpToDate(a) && a.status == Running {
        var i :| 0 <= i < |advs| && advs[i] == a;
        assert ReportedFrom(advs[i], srcs[i]) && Settled(srcs[i]);
      }
    }
  }

  lemma {:induction false} ZeroSum(xs: seq<int>)
    requires forall i :: 0 <= i < |xs| ==> xs[i] == 0
    ensures Sum(xs) == 0
  {
    if xs == [] {
    } else {
      ZeroSum(xs[..|xs| - 1]);
    }
  }

  lemma {:induction false} GenerationsOfAll(srcs: seq<Source>)
    requires forall i :: 0 <= i < |srcs| ==> W.GenerationsEqual(OwnedBy(srcs[i]))
    ensures W.GenerationsEqual(AllOwned(srcs))
  {
    if srcs == [] {
    } else {
      var n := |srcs| - 1;
      GenerationsOfAll(srcs[..n]);
      forall w | w in AllOwned(srcs) ensures w.observedGeneration == w.generation {
        assert w in AllOwned(srcs[..n]) || w in OwnedBy(srcs[n]);
        assert W.GenerationsEqual(OwnedBy(srcs[n]));
      }
    }
  }

  lemma RunningTotals(replicas: int32, advs: seq<M.ClusterAdv>, srcs: seq<Source>)
    requires AllReportedFrom(advs, srcs)
    requires forall i :: 0 <= i < |advs| ==> Settled(srcs[i])
    requires Wrap32(Grand(srcs, Available)) == replicas
    ensures Wrap32(Grand(srcs, Desired)) == replicas && Wrap32(Grand(srcs, Updated)) == replicas
    ensures Wrap32(Grand(srcs, Unavailable)) == 0
  {
    SettledTotals(srcs, Desired);
    SettledTotals(srcs, Updated);
    NoneUnavailable(advs, srcs);
  }

  lemma SettledTotals(srcs: seq<Source>, f: Figure)
    requires f != Unavailable && forall i :: 0 <= i < |srcs| ==> Settled(srcs[i])
    ensures Wrap32(Grand(srcs, f)) == Wrap32(Grand(srcs, Available))
  {
    forall i | 0 <= i < |srcs|
      ensures Total32(Figures(OwnedBy(srcs[i]), f)) == Total32(Figures(OwnedBy(srcs[i]), Available))
    {
      assert Settled(srcs[i]);
    }
    SameTotals(srcs, f, Available);
  }

  lemma NoneUnavailable(advs: seq<M.ClusterAdv>, srcs: seq<Source>)
    requires AllReportedFrom(advs, srcs)
    requires forall i :: 0 <= i < |advs| ==> Settled(srcs[i])
    ensures Wrap32(Grand(srcs, Unavailable)) == 0
  {
    var us := M.Unavailables(advs);
    forall i | 0 <= i < |advs| ensures us[i] == 0 && us[i] == Total32(Figures(OwnedBy(srcs[i]), Unavailable)) {
      assert ReportedFrom(advs[i], srcs[i]) && Settled(srcs[i]);
    }
    TotalsOfTotals(srcs, Unavailable, us);
    ZeroSum(us);
  }

  /** End to end: a Running AppSet has observed its generation, every collected AdvDeployment is observed
      and Running, and over all owned workloads of all clusters the available, the desired and the
      updated replicas each add up to the replicas asked for (modulo 2^32), with none unavailable. */
  lemma RunningMeansEveryReplica(s: M.Status, generation: int64, replicas: int32, advs: seq<M.ClusterAdv>,
                                 srcs: seq<Source>)
    requires s == M.StatusFor(generation, replicas, advs) && AllReportedFrom(advs, srcs)
    requires s.status == Running
    ensures s.observedGeneration == generation
    ensures forall a :: a in advs ==> M.UpToDate(a) && a.status == Running
    ensures Wrap32(Grand(srcs, Available)) == replicas && Wrap32(Grand(srcs, Desired)) == replicas
    ensures Wrap32(Grand(srcs, Updated)) == replicas && Wrap32(Grand(srcs, Unavailable)) == 0
    ensures W.GenerationsEqual(AllOwned(srcs))
  {
    RunningIff(s, generation, replicas, advs, srcs);
    RunningTotals(replicas, advs, srcs);
    GenerationsOfAll(srcs);
  }

  // ---------------------------------------------------------------- the version

  predicate AllVersionsFrom(advs: seq<M.ClusterAdv>, srcs: seq<Source>) {
    |advs| == |srcs| && forall i :: 0 <= i < |advs| ==> VersionFrom(advs[i], srcs[i])
  }

  /** The versions of the owned workloads, cluster by cluster. */
  function OwnedVersions(srcs: seq<Source>): seq<seq<string>> {
    seq(|srcs|, i requires 0 <= i < |srcs| => PodVersions.VersionsOf(W.PodsOf(OwnedBy(srcs[i]))))
  }

  /** From the images of the workloads to the AppSet: if every owned workload of every collected cluster
      has a version of the printed form or none, the AppSet's version is the ascending print of all their
      numbers, each once. */
  lemma VersionIsOfAllOwned(generation: int64, replicas: int32, advs: seq<M.ClusterAdv>, srcs: seq<Source>)
    requires AllVersionsFrom(advs, srcs) && PodVersions.AllPrinted(OwnedVersions(srcs))
    ensures M.StatusFor(generation, replicas, advs).version
         == Version.Printed(Version.Values(PodVersions.AllPodVersions(OwnedVersions(srcs))))
  {
    var vs, ws := M.Versions(advs), PodVersions.WorkerVersions(OwnedVersions(srcs));
    forall i | 0 <= i < |advs| ensures vs[i] == ws[i] { assert VersionFrom(advs[i], srcs[i]); }
    assert vs == ws;
    PodVersions.AppSetVersionIsAllPodVersions(OwnedVersions(srcs));
  }
}
