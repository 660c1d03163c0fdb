/** Whom "Running" speaks for. The fan-out hands on only the clusters that answered with an AdvDeployment;
    one that cannot be reached, or does not have it, is dropped from the list. */
module Collected {
  import opened Prelude
  import opened Api
  import opened EndToEnd
  import M = AppSetStatus
  import W = Worker
  import PodVersions
  import Version
  import FanOut

  /** One outcome per cluster of the spec; srcs[i] is what the i-th cluster's status was computed from, if
      it answered. */
  predicate Reporting(c: FanOut.Config<M.ClusterAdv>, srcs: seq<Source>) {
    && c.nested && |srcs| == |c.outs|
    && forall i :: 0 <= i < |srcs| && c.outs[i].item.Some? ==> ReportedFrom(c.outs[i].item.value, srcs[i])
  }

  /** The sources of those of the first k clusters that answered. */
  function AnsweredSources(c: FanOut.Config<M.ClusterAdv>, srcs: seq<Source>, k: nat): seq<Source>
    requires k <= |c.outs| == |srcs|
  {
    if k == 0 then [] else AnsweredSources(c, srcs, k - 1) + if c.outs[k - 1].item.Some? then [srcs[k - 1]] else []
  }

  predicate Fine(a: M.ClusterAdv, src: Source) { M.UpToDate(a) && Settled(src) }

  predicate FineIfAnswered(c: FanOut.Config<M.ClusterAdv>, srcs: seq<Source>, k: nat)
    requires k <= |c.outs| == |srcs|
  {
    forall i :: 0 <= i < k && c.outs[i].item.Some? ==> Fine(c.outs[i].item.value, srcs[i])
  }

  predicate AllFine(advs: seq<M.ClusterAdv>, srcs: seq<Source>)
    requires |advs| == |srcs|
  {
    forall i :: 0 <= i < |advs| ==> Fine(advs[i], srcs[i])
  }

  /** What the first k clusters answered, in the order of the spec: AdvDeployments with their sources. */
  ghost predicate Answers(c: FanOut.Config<M.ClusterAdv>, srcs: seq<Source>, k: nat, advs: seq<M.ClusterAdv>,
                          answered: seq<Source>)
    requires k <= |c.outs| == |srcs|
  {
    AllReportedFrom(advs, answered) && (AllFine(advs, answered) <==> FineIfAnswered(c, srcs, k))
  }

  lemma OneMoreAnswer(c: FanOut.Config<M.ClusterAdv>, srcs: seq<Source>, k: nat, advs: seq<M.ClusterAdv>,
                      answered: seq<Source>)
    requires Reporting(c, srcs) && k < |c.outs| && Answers(c, srcs, k, advs, answered)
    ensures var o := c.outs[k];
      if o.item.Some? then Answers(c, srcs, k + 1, advs + [o.item.value], answered + [srcs[k]])
      else Answers(c, srcs, k + 1, advs, answered)
  {
    if c.outs[k].item.Some? { FineSnoc(advs, answered, c.outs[k].item.value, srcs[k]); }
  }

  function AnsweredItems(c: FanOut.Config<M.ClusterAdv>, k: nat): seq<M.ClusterAdv>
    requires k <= |c.outs|
  {
    if k == 0 then [] else AnsweredItems(c, k - 1) + if c.outs[k - 1].item.Some? then [c.outs[k - 1].item.value] else []
  }

  lemma {:induction false} SequentialItemsAre(c: FanOut.Config<M.ClusterAdv>, k: nat)
    requires c.nested && k <= |c.outs|
    ensures FanOut.Sequential(c, k).items == AnsweredItems(c, k)
  {
    if k == 0 {
    } else {
      SequentialItemsAre(c, k - 1);
    }
  }

  lemma {:induction false} AnswersSoFar(c: FanOut.Config<M.ClusterAdv>, srcs: seq<Source>, k: nat)
    requires Reporting(c, srcs) && k <= |c.outs|
    ensures Answers(c, srcs, k, AnsweredItems(c, k), AnsweredSources(c, srcs, k))
  {
    if k == 0 {
    } else {
      var advs, answered := AnsweredItems(c, k - 1), AnsweredSources(c, srcs, k - 1);
      AnswersSoFar(c, srcs, k - 1);
      OneMoreAnswer(c, srcs, k - 1, advs, answered);
      if c.outs[k - 1].item.None? { assert AnsweredItems(c, k) == advs && AnsweredSources(c, srcs, k) == answered; }
    }
  }

  lemma FineSnoc(advs: seq<M.ClusterAdv>, srcs: seq<Source>, a: M.ClusterAdv, src: Source)
    requires AllReportedFrom(advs, srcs) && ReportedFrom(a, src)
    ensures AllReportedFrom(advs + [a], srcs + [src])
    ensures AllFine(advs + [a], srcs + [src]) <==> AllFine(advs, srcs) && Fine(a, src)
  {
    if AllFine(advs + [a], srcs + [src]) {
      forall i | 0 <= i < |advs| + 1 ensures Fine((advs + [a])[i], (srcs + [src])[i]) {}
      assert (advs + [a])[|advs|] == a && (srcs + [src])[|advs|] == src;
      forall i | 0 <= i < |advs| ensures Fine(advs[i], srcs[i]) {
        assert (advs + [a])[i] == advs[i] && (srcs + [src])[i] == srcs[i];
      }
    }
  }

  lemma ArrivedInOrder(c: FanOut.Config<M.ClusterAdv>, s: FanOut.State, advs: seq<M.ClusterAdv>)
    requires FanOut.Reachable(c, s) && s.main.Returned? && FanOut.ItemsInOrder(c, s.items.got, advs) && c.nested
    ensures multiset(advs) == multiset(AnsweredItems(c, |c.outs|))
  {
    var texts, items := FanOut.ReceivedListsExist(c, s);
    FanOut.FanOutRefinesSequentialLoop(c, s, texts, advs);
    SequentialItemsAre(c, |c.outs|);
  }

  /** The order of arrival does not matter: up to the order of the clusters, and but for versions that are
      not canonical, the status is that of the answers taken in the order of the spec. */
  lemma StatusInOrder(c: FanOut.Config<M.ClusterAdv>, s: FanOut.State, advs: seq<M.ClusterAdv>,
                      generation: int64, replicas: int32)
    requires FanOut.Reachable(c, s) && s.main.Returned? && FanOut.ItemsInOrder(c, s.items.got, advs) && c.nested
    ensures var inOrder := AnsweredItems(c, |c.outs|);
      var r1, r2 := M.StatusFor(generation, replicas, advs), M.StatusFor(generation, replicas, inOrder);
      && r2 == r1.(version := r2.version, clusters := r2.clusters)
      && multiset(r1.clusters) == multiset(r2.clusters)
      && ((forall a :: a in inOrder ==> Version.Canonical(a.version)) ==> r1.version == r2.version)
  {
    var inOrder := AnsweredItems(c, |c.outs|);
    ArrivedInOrder(c, s, advs);
    M.StatusPermutes(generation, replicas, advs, inOrder);
    if forall a :: a in inOrder ==> Version.Canonical(a.version) {
      M.CanonicalVersionsPermute(inOrder, advs);
    }
  }

  lemma RunningInOrder(c: FanOut.Config<M.ClusterAdv>, s: FanOut.State, advs: seq<M.ClusterAdv>,
                       generation: int64, replicas: int32)
    requires FanOut.Reachable(c, s) && s.main.Returned? && FanOut.ItemsInOrder(c, s.items.got, advs) && c.nested
    ensures M.StatusFor(generation, replicas, advs).status ==
              M.StatusFor(generation, replicas, AnsweredItems(c, |c.outs|)).status
  {
    StatusInOrder(c, s, advs, generation, replicas);
  }

  lemma RunningIffAnswers(c: FanOut.Config<M.ClusterAdv>, srcs: seq<Source>, generation: int64, replicas: int32)
    requires Reporting(c, srcs)
    ensures M.StatusFor(generation, replicas, AnsweredItems(c, |c.outs|)).status == Running <==>
      && FineIfAnswered(c, srcs, |c.outs|)
      && Wrap32(Grand(AnsweredSources(c, srcs, |c.outs|), Available)) == replicas
  {
    var inOrder, answered := AnsweredItems(c, |c.outs|), AnsweredSources(c, srcs, |c.outs|);
    AnswersSoFar(c, srcs, |c.outs|);
    RunningIff(M.StatusFor(generation, replicas, inOrder), generation, replicas, inOrder, answered);
  }

  /** Across fan-out, aggregation and worker, for every interleaving: the status of the collected list is
      Running exactly when every cluster of the spec that answered is observed and settled, and the
      replicas available there are, modulo 2^32, the replicas asked for. Clusters that did not answer
      have no say. */
  lemma RunningIffAnsweredRun(c: FanOut.Config<M.ClusterAdv>, s: FanOut.State, advs: seq<M.ClusterAdv>,
                              srcs: seq<Source>, generation: int64, replicas: int32)
    requires FanOut.Reachable(c, s) && s.main.Returned? && FanOut.ItemsInOrder(c, s.items.got, advs)
    requires Reporting(c, srcs)
    ensures M.StatusFor(generation, replicas, advs).status == Running <==>
      && FineIfAnswered(c, srcs, |c.outs|)
      && Wrap32(Grand(AnsweredSources(c, srcs, |c.outs|), Available)) == replicas
  {
    RunningInOrder(c, s, advs, generation, replicas);
    RunningIffAnswers(c, srcs, generation, replicas);
  }

  predicate AllAnswered(c: FanOut.Config<M.ClusterAdv>) { forall i :: 0 <= i < |c.outs| ==> c.outs[i].item.Some? }

  /** Every cluster of the spec has the AdvDeployment, observed and settled, and together they have the replicas. */
  predicate WholeSpecRuns(c: FanOut.Config<M.ClusterAdv>, srcs: seq<Source>, replicas: int32)
    requires |srcs| == |c.outs|
  {
    && (forall i :: 0 <= i < |c.outs| ==> c.outs[i].item.Some? && Fine(c.outs[i].item.value, srcs[i]))
    && Wrap32(Grand(srcs, Available)) == replicas
  }

  lemma {:induction false} AllAnsweredSources(c: FanOut.Config<M.ClusterAdv>, srcs: seq<Source>, k: nat)
    requires k <= |c.outs| == |srcs| && AllAnswered(c)
    ensures AnsweredSources(c, srcs, k) == srcs[..k]
  {
    if k == 0 {
    } else {
      AllAnsweredSources(c, srcs, k - 1);
    }
  }

  /** When every cluster answered, what counts for the answers counts for the whole spec. */
  lemma WholeSpecIffFine(c: FanOut.Config<M.ClusterAdv>, srcs: seq<Source>, replicas: int32)
    requires |srcs| == |c.outs| && AllAnswered(c)
    ensures WholeSpecRuns(c, srcs, replicas) <==>
      && FineIfAnswered(c, srcs, |c.outs|)
      && Wrap32(Grand(AnsweredSources(c, srcs, |c.outs|), Available)) == replicas
  {
    AllAnsweredSources(c, srcs, |c.outs|);
    assert srcs[..|srcs|] == srcs;
  }

  /** The whole spec runs exactly when the status is Running and every cluster answered with an
      AdvDeployment: so a Running status speaks for the whole spec if and only if none was dropped. */
  lemma WholeSpecRunsIff(c: FanOut.Config<M.ClusterAdv>, s: FanOut.State, advs: seq<M.ClusterAdv>, srcs: seq<Source>,
                         generation: int64, replicas: int32)
    requires FanOut.Reachable(c, s) && s.main.Returned? && FanOut.ItemsInOrder(c, s.items.got, advs)
    requires Reporting(c, srcs)
    ensures WholeSpecRuns(c, srcs, replicas) <==>
              M.StatusFor(generation, replicas, advs).status == Running && AllAnswered(c)
  {
    if AllAnswered(c) {
      RunningIffAnsweredRun(c, s, advs, srcs, generation, replicas);
      WholeSpecIffFine(c, srcs, replicas);
    }
  }

  lemma WholeSpecReports(c: FanOut.Config<M.ClusterAdv>, srcs: seq<Source>)
    requires Reporting(c, srcs) && AllAnswered(c)
    ensures AllReportedFrom(AnsweredItems(c, |c.outs|), srcs)
  {
    AnswersSoFar(c, srcs, |c.outs|);
    AllAnsweredSources(c, srcs, |c.outs|);
    assert srcs[..|srcs|] == srcs;
  }

  /** And then the figures speak for the whole spec too: available, desired and updated replicas of every
      owned workload in every cluster of the spec add up to the replicas asked for, none unavailable. */
  lemma RunningMeansWholeSpec(c: FanOut.Config<M.ClusterAdv>, s: FanOut.State, advs: seq<M.ClusterAdv>,
                              srcs: seq<Source>, generation: int64, replicas: int32)
    requires FanOut.Reachable(c, s) && s.main.Returned? && FanOut.ItemsInOrder(c, s.items.got, advs)
    requires Reporting(c, srcs)
    ensures AllAnswered(c) && M.StatusFor(generation, replicas, advs).status == Running ==>
      && Wrap32(Grand(srcs, Available)) == replicas && Wrap32(Grand(srcs, Desired)) == replicas
      && Wrap32(Grand(srcs, Updated)) == replicas && Wrap32(Grand(srcs, Unavailable)) == 0
      && W.GenerationsEqual(AllOwned(srcs))
  {
    if AllAnswered(c) && M.StatusFor(generation, replicas, advs).status == Running {
      var inOrder := AnsweredItems(c, |c.outs|);
      RunningInOrder(c, s, advs, generation, replicas);
      WholeSpecReports(c, srcs);
      RunningMeansEveryReplica(M.StatusFor(generation, replicas, inOrder), generation, replicas, inOrder, srcs);
    }
  }

  lemma ItemsOfFirst(c: FanOut.Config<M.ClusterAdv>, order: seq<nat>)
    requires c.nested && |c.outs| == 2 && c.outs[0].item.Some? && c.outs[1].item.None? && order == [0, 1]
    ensures FanOut.ItemsOf(c, order) == [0]
  {
    var first := order[..1];
    assert first == [0] && first[..0] == [];
    assert FanOut.ItemsOf(c, first) == first;
  }

  lemma ReceiveOnlyFirst(c: FanOut.Config<M.ClusterAdv>, a: M.ClusterAdv) returns (s: FanOut.State)
    requires c.nested && |c.outs| == 2 && c.outs[0].item == Some(a) && c.outs[1].item == None
    ensures FanOut.Reachable(c, s) && s.main.Returned? && FanOut.ItemsInOrder(c, s.items.got, [a])
  {
    var order: seq<nat> := [0, 1];
    s := FanOut.EveryOrderHappens(c, order);
    ItemsOfFirst(c, order);
  }

  lemma SumOfOne(x: int32)
    ensures Wrap32(Sum([x])) == x
  {
    assert [x][..0] == [];
    assert Sum([x]) == x;
  }

  lemma OneRunning(a: M.ClusterAdv, generation: int64)
    requires M.UpToDate(a) && a.status == Running && a.unavailable == 0
    ensures var status := M.StatusFor(generation, a.available, [a]);
      status.status == Running && status.observedGeneration == generation
  {
    SumOfOne(a.available);
    SumOfOne(a.unavailable);
    assert M.Availables([a]) == [a.available] && M.Unavailables([a]) == [a.unavailable];
  }

  /** A dropped cluster is invisible: of two clusters one does not answer (with whatever error, or because
      it has no AdvDeployment), the other alone has the replicas asked for, and the AppSet is reported
      Running with its generation observed. */
  lemma DroppedClusterIsInvisible(c: FanOut.Config<M.ClusterAdv>, a: M.ClusterAdv, generation: int64)
    returns (s: FanOut.State)
    requires c.nested && |c.outs| == 2 && c.outs[0].item == Some(a) && c.outs[1].item == None
    requires M.UpToDate(a) && a.status == Running && a.unavailable == 0
    ensures FanOut.Reachable(c, s) && s.main.Returned? && FanOut.ItemsInOrder(c, s.items.got, [a])
    ensures var status := M.StatusFor(generation, a.available, [a]);
      status.status == Running && status.observedGeneration == generation
    ensures !AllAnswered(c)
  {
    s := ReceiveOnlyFirst(c, a);
    OneRunning(a, generation);
    assert c.outs[1].item.None?;
  }

  // ---------------------------------------------------------------- the version of a run of the fan-out

  predicate VersionsFrom(c: FanOut.Config<M.ClusterAdv>, srcs: seq<Source>) {
    && c.nested && |srcs| == |c.outs|
    && forall i :: 0 <= i < |srcs| && c.outs[i].item.Some? ==> VersionFrom(c.outs[i].item.value, srcs[i])
  }

  lemma {:induction false} VersionsSoFar(c: FanOut.Config<M.ClusterAdv>, srcs: seq<Source>, k: nat)
    requires VersionsFrom(c, srcs) && k <= |c.outs|
    ensures AllVersionsFrom(AnsweredItems(c, k), AnsweredSources(c, srcs, k))
  {
    if k == 0 {
    } else {
      VersionsSoFar(c, srcs, k - 1);
    }
  }

  lemma PrintedIsCanonical(a: M.ClusterAdv, src: Source)
    requires VersionFrom(a, src)
    requires forall v :: v in PodVersions.VersionsOf(W.PodsOf(OwnedBy(src))) && v != "" ==> PodVersions.IsToken(v)
    ensures Version.Canonical(a.version)
  {
    PodVersions.WorkerVersionIsCanonical(PodVersions.VersionsOf(W.PodsOf(OwnedBy(src))));
  }

  lemma AllPrintedAreCanonical(advs: seq<M.ClusterAdv>, srcs: seq<Source>)
    requires AllVersionsFrom(advs, srcs) && PodVersions.AllPrinted(OwnedVersions(srcs))
    ensures forall a :: a in advs ==> Version.Canonical(a.version)
  {
    forall a | a in advs ensures Version.Canonical(a.version) {
      var i :| 0 <= i < |advs| && advs[i] == a;
      assert VersionFrom(advs[i], srcs[i]);
      assert OwnedVersions(srcs)[i] == PodVersions.VersionsOf(W.PodsOf(OwnedBy(srcs[i])));
      PrintedIsCanonical(a, srcs[i]);
    }
  }

  /** In every interleaving: if the owned workloads of the clusters that answered have versions of the
      printed form or none, the AppSet's version is the ascending print of all their numbers, each once. */
  lemma VersionOfAnswers(c: FanOut.Config<M.ClusterAdv>, s: FanOut.State, advs: seq<M.ClusterAdv>, srcs: seq<Source>,
                         generation: int64, replicas: int32)
    requires FanOut.Reachable(c, s) && s.main.Returned? && FanOut.ItemsInOrder(c, s.items.got, advs)
    requires VersionsFrom(c, srcs)
    ensures var versions := OwnedVersions(AnsweredSources(c, srcs, |c.outs|));
      PodVersions.AllPrinted(versions) ==>
        M.StatusFor(generation, replicas, advs).version
        == Version.Printed(Version.Values(PodVersions.AllPodVersions(versions)))
  {
    var inOrder, answered := AnsweredItems(c, |c.outs|), AnsweredSources(c, srcs, |c.outs|);
    if PodVersions.AllPrinted(OwnedVersions(answered)) {
      VersionsSoFar(c, srcs, |c.outs|);
      AllPrintedAreCanonical(inOrder, answered);
      StatusInOrder(c, s, advs, generation, replicas);
      VersionIsOfAllOwned(generation, replicas, inOrder, answered);
    }
  }

  // ---------------------------------------------------------------- worker runs behind the answers

  /** Each answer is what a worker run of its cluster stored. */
  predicate AnsweredByRuns(c: FanOut.Config<M.ClusterAdv>, runs: seq<WorkerRun>) {
    && c.nested && |runs| == |c.outs|
    && forall i :: 0 <= i < |runs| && c.outs[i].item.Some? ==>
         Stores(runs[i]) && ReadFrom(c.outs[i].item.value, StoredBy(runs[i]))
  }

  function SourcesOf(runs: seq<WorkerRun>): seq<Source> {
    seq(|runs|, i requires 0 <= i < |runs| => SourceOf(runs[i]))
  }

  /** Then everything above speaks of the lists those runs worked on: nothing about the answers is left to
      assume. */
  lemma RunsReport(c: FanOut.Config<M.ClusterAdv>, runs: seq<WorkerRun>)
    requires AnsweredByRuns(c, runs)
    ensures Reporting(c, SourcesOf(runs)) && VersionsFrom(c, SourcesOf(runs))
  {
    forall i | 0 <= i < |runs| && c.outs[i].item.Some?
      ensures ReportedFrom(c.outs[i].item.value, SourcesOf(runs)[i])
                && VersionFrom(c.outs[i].item.value, SourcesOf(runs)[i])
    {
      StoredIsReported(c.outs[i].item.value, runs[i]);
    }
  }

  /** From the workers' runs through the fan-out to the AppSet: the workloads the runs counted have settled
      and add up to the replicas in every cluster of the spec, exactly when the AppSet is Running and every
      cluster answered. */
  lemma WholeSpecRunsFromWorkers(c: FanOut.Config<M.ClusterAdv>, s: FanOut.State, advs: seq<M.ClusterAdv>,
                                 runs: seq<WorkerRun>, generation: int64, replicas: int32)
    requires FanOut.Reachable(c, s) && s.main.Returned? && FanOut.ItemsInOrder(c, s.items.got, advs)
    requires |runs| == |c.outs|
    ensures AnsweredByRuns(c, runs) ==>
              (WholeSpecRuns(c, SourcesOf(runs), replicas) <==>
               M.StatusFor(generation, replicas, advs).status == Running && AllAnswered(c))
  {
    if AnsweredByRuns(c, runs) {
      RunsReport(c, runs);
      WholeSpecRunsIff(c, s, advs, SourcesOf(runs), generation, replicas);
    }
  }
}
