/** The master's aggregated status: `buildAppsetStatus` over the list the fan-out collected. */
module AppSetStatus {
  import opened Prelude
  import opened Api
  import FanOut
  import Version
  import VersionOrder

  /** The parts of a collected AdvDeployment that the master reads. The list of pod sets is copied by
      reference, so a reference stands for it. */
  datatype ClusterAdv = ClusterAdv(
    cluster: string,
    generation: int64,
    observedGeneration: int64,
    status: AppStatus,
    version: string,
    desired: int32,
    available: int32,
    unavailable: int32,
    podSets: nat)

  datatype ClusterActual = ClusterActual(name: string, desired: int32, available: int32, unavailable: int32,
                                         podSets: nat)

  /** The computed status, without its warning events. */
  datatype Status = Status(
    observedGeneration: int64,
    status: AppStatus,
    version: string,
    desired: int32,
    available: int32,
    unavailable: int32,
    clusters: seq<ClusterActual>)

  function Actual(a: ClusterAdv): ClusterActual {
    ClusterActual(a.cluster, a.desired, a.available, a.unavailable, a.podSets)
  }

  predicate UpToDate(a: ClusterAdv) { a.generation == a.observedGeneration }

  function Availables(advs: seq<ClusterAdv>): seq<int32> {
    seq(|advs|, i requires 0 <= i < |advs| => advs[i].available)
  }

  function Unavailables(advs: seq<ClusterAdv>): seq<int32> {
    seq(|advs|, i requires 0 <= i < |advs| => advs[i].unavailable)
  }

  ghost function Versions(advs: seq<ClusterAdv>): seq<string> {
    seq(|advs|, i requires 0 <= i < |advs| => advs[i].version)
  }

  function Actuals(advs: seq<ClusterAdv>): seq<ClusterActual> {
    seq(|advs|, i requires 0 <= i < |advs| => Actual(advs[i]))
  }

  /** Every collected AdvDeployment is observed at its generation and Running. */
  predicate AllRunning(advs: seq<ClusterAdv>) {
    forall a :: a in advs ==> UpToDate(a) && a.status == Running
  }

  predicate AllUpToDate(advs: seq<ClusterAdv>) { forall a :: a in advs ==> UpToDate(a) }

  /** The status of a list of AdvDeployments: the int32 totals are the sums modulo 2^32, the clusters are
      listed in order of arrival, Running needs every AdvDeployment observed and Running, the available
      total equal to the replicas and nothing unavailable, and the generation counts as observed only
      when every AdvDeployment is. */
  ghost function StatusFor(generation: int64, replicas: int32, advs: seq<ClusterAdv>): Status {
    var available, unavailable := Wrap32(Sum(Availables(advs))), Wrap32(Sum(Unavailables(advs)));
    Status(if AllUpToDate(advs) then generation else Wrap64(generation - 1),
           if AllRunning(advs) && available == replicas && unavailable == 0 then Running else Installing,
           Version.MergeAll(Versions(advs)), replicas, available, unavailable, Actuals(advs))
  }

  /** `app.Spec.Replicas == nil` is checked (controllers/appset/step.go:273), but it is dereferenced whatever
      the check said (controllers/appset/step.go:287), so the result is None (a nil dereference) exactly
      when replicas is nil. */
  method BuildAppsetStatus(generation: int64, replicas: Option<int32>, advs: seq<ClusterAdv>)
    returns (r: Option<Status>)
    ensures r.None? <==> replicas.None?
    ensures r.Some? ==> r.value == StatusFor(generation, replicas.value, advs)
    ensures r.Some? ==>
              (r.value.observedGeneration == generation <==>
               forall a :: a in advs ==> a.generation == a.observedGeneration)
    ensures r.Some? && r.value.observedGeneration != generation ==>
              r.value.observedGeneration == if generation == -TWO_63 then TWO_63 - 1 else generation - 1
  {
    var version, clusters := "", [];
    var desired: int32, available: int32, unavailable: int32 := 0, 0, 0;
    var changeObserved, finalStatus := true, Running;
    for i := 0 to |advs|
      invariant version == Version.MergeAll(Versions(advs[..i]))
      invariant clusters == Actuals(advs[..i])
      invariant available == Total32(Availables(advs[..i])) && unavailable == Total32(Unavailables(advs[..i]))
      invariant changeObserved == AllUpToDate(advs[..i])
      invariant finalStatus == if AllRunning(advs[..i]) then Running else Installing
    {
      var a := advs[i];
      var merged := Version.MergeVersion(version, a.version);
      GrowVersion(advs, i);
      GrowActuals(advs, i);
      GrowTotals(advs, i);
      GrowFlags(advs, i);
      version, clusters := merged, clusters + [Actual(a)];
      desired := Add32(desired, a.desired);
      available, unavailable := Add32(available, a.available), Add32(unavailable, a.unavailable);
      if changeObserved {
        changeObserved := a.generation == a.observedGeneration;
      }
      if a.generation != a.observedGeneration || a.status != Running {
        finalStatus := Installing;
      }
    }
    assert advs[..|advs|] == advs;
    Total32IsSum(Availables(advs));
    Total32IsSum(Unavailables(advs));
    if replicas.None? {
      return None;
    }
    desired := replicas.value;
    var allAvailable := available == replicas.value && unavailable == 0;
    var status := if finalStatus == Running && allAvailable then Running else Installing;
    var observed := if changeObserved then generation else Wrap64(generation - 1);
    HeldBack(generation);
    r := Some(Status(observed, status, version, desired, available, unavailable, clusters));
  }

  lemma HeldBack(generation: int64)
    ensures Wrap64(generation - 1) == if generation == -TWO_63 then TWO_63 - 1 else generation - 1
  {
  }

  /** In the fields of the AdvDeployments: totals modulo 2^32, the merge of their versions in their order, one
      cluster for each of them, and Running only if all of them are. */
  lemma StatusInFields(generation: int64, replicas: int32, advs: seq<ClusterAdv>, available: seq<int32>,
                       unavailable: seq<int32>, versions: seq<string>)
    requires |advs| == |available| == |unavailable| == |versions|
    requires forall i :: 0 <= i < |advs| ==> advs[i].available == available[i] && advs[i].unavailable == unavailable[i]
    requires forall i :: 0 <= i < |advs| ==> advs[i].version == versions[i]
    ensures var s := StatusFor(generation, replicas, advs);
      && s.desired == replicas && s.available == Wrap32(Sum(available)) && s.unavailable == Wrap32(Sum(unavailable))
      && s.version == Version.MergeAll(versions) && |s.clusters| == |advs|
      && (forall i :: 0 <= i < |advs| ==>
            s.clusters[i] == ClusterActual(advs[i].cluster, advs[i].desired, advs[i].available, advs[i].unavailable,
                                           advs[i].podSets))
      && s.status == if s.available == replicas && s.unavailable == 0
                        && forall a :: a in advs ==> a.generation == a.observedGeneration && a.status == Running
                     then Running else Installing
  {
    assert Availables(advs) == available && Unavailables(advs) == unavailable && Versions(advs) == versions;
  }

  lemma GrowActuals(advs: seq<ClusterAdv>, i: nat)
    requires i < |advs|
    ensures Actuals(advs[..i + 1]) == Actuals(advs[..i]) + [Actual(advs[i])]
  {
  }

  lemma GrowTotals(advs: seq<ClusterAdv>, i: nat)
    requires i < |advs|
    ensures Total32(Availables(advs[..i + 1])) == Add32(Total32(Availables(advs[..i])), advs[i].available)
    ensures Total32(Unavailables(advs[..i + 1])) == Add32(Total32(Unavailables(advs[..i])), advs[i].unavailable)
  {
    assert Availables(advs[..i + 1])[..i] == Availables(advs[..i]);
    assert Unavailables(advs[..i + 1])[..i] == Unavailables(advs[..i]);
  }

  lemma GrowFlags(advs: seq<ClusterAdv>, i: nat)
    requires i < |advs|
    ensures AllRunning(advs[..i + 1]) <==> AllRunning(advs[..i]) && UpToDate(advs[i]) && advs[i].status == Running
    ensures AllUpToDate(advs[..i + 1]) <==> AllUpToDate(advs[..i]) && UpToDate(advs[i])
  {
    assert advs[..i + 1] == advs[..i] + [advs[i]];
  }

  lemma GrowVersion(advs: seq<ClusterAdv>, i: nat)
    requires i < |advs|
    ensures Version.MergeAll(Versions(advs[..i + 1])) ==
              Version.Merged(Version.MergeAll(Versions(advs[..i])), advs[i].version)
  {
    assert Versions(advs[..i + 1])[..i] == Versions(advs[..i]);
  }

  // ---------------------------------------------------------------- independence of the schedule

  /** What does not depend on the order: everything except the version and the order of the clusters,
      whose list is permuted. */
  lemma StatusPermutes(generation: int64, replicas: int32, a: seq<ClusterAdv>, b: seq<ClusterAdv>)
    requires multiset(a) == multiset(b)
    ensures var s, t := StatusFor(generation, replicas, a), StatusFor(generation, replicas, b);
      t == s.(version := t.version, clusters := t.clusters) && multiset(s.clusters) == multiset(t.clusters)
    ensures multiset(Versions(a)) == multiset(Versions(b))
  {
    assert forall x :: x in a <==> x in multiset(a);
    assert forall x :: x in b <==> x in multiset(b);
    assert |multiset(a)| == |a| && |multiset(b)| == |b|;
    ImagesPermute(a, b, Actuals(a), Actuals(b));
    ImagesPermute(a, b, Versions(a), Versions(b));
    ImagesPermute<ClusterAdv, int>(a, b, Availables(a), Availables(b));
    ImagesPermute<ClusterAdv, int>(a, b, Unavailables(a), Unavailables(b));
    SumPermutes(Availables(a), Availables(b));
    SumPermutes(Unavailables(a), Unavailables(b));
  }

  /** Schedule independence of the reported status: for any two interleavings of the same fan-out, the
      statuses agree in everything but the order of the clusters, provided the version strings are
      written in canonical tokens. */
  lemma StatusIsScheduleIndependent(c: FanOut.Config<ClusterAdv>, s1: FanOut.State, s2: FanOut.State,
                                    a1: seq<ClusterAdv>, a2: seq<ClusterAdv>,
                                    generation: int64, replicas: int32)
    requires FanOut.Reachable(c, s1) && s1.main.Returned? && FanOut.ItemsInOrder(c, s1.items.got, a1)
    requires FanOut.Reachable(c, s2) && s2.main.Returned? && FanOut.ItemsInOrder(c, s2.items.got, a2)
    ensures var r1, r2 := StatusFor(generation, replicas, a1), StatusFor(generation, replicas, a2);
      && r2 == r1.(version := r2.version, clusters := r2.clusters)
      && multiset(r1.clusters) == multiset(r2.clusters)
      && ((forall a :: a in a1 ==> Version.Canonical(a.version)) ==> r1.version == r2.version)
  {
    var t1, x1 := FanOut.ReceivedListsExist(c, s1);
    var t2, x2 := FanOut.ReceivedListsExist(c, s2);
    FanOut.FanOutRefinesSequentialLoop(c, s1, t1, a1);
    FanOut.FanOutRefinesSequentialLoop(c, s2, t2, a2);
    StatusPermutes(generation, replicas, a1, a2);
    if forall a :: a in a1 ==> Version.Canonical(a.version) {
      CanonicalVersionsPermute(a1, a2);
    }
  }

  lemma CanonicalVersionsPermute(a1: seq<ClusterAdv>, a2: seq<ClusterAdv>)
    requires multiset(a1) == multiset(a2) && forall a :: a in a1 ==> Version.Canonical(a.version)
    ensures Version.MergeAll(Versions(a1)) == Version.MergeAll(Versions(a2))
  {
    var v1, v2 := Versions(a1), Versions(a2);
    SameVersions(a1, a2);
    Version.MergeAllIsUnion(v1);
    Version.MergeAllIsUnion(v2);
    assert Version.AllNumbers(v1) == Version.AllNumbers(v2);
  }

  lemma SameVersions(a1: seq<ClusterAdv>, a2: seq<ClusterAdv>)
    requires multiset(a1) == multiset(a2) && forall a :: a in a1 ==> Version.Canonical(a.version)
    ensures forall v :: v in Versions(a1) <==> v in Versions(a2)
    ensures forall v :: v in Versions(a1) ==> Version.Canonical(v)
  {
    forall v | v in Versions(a1) ensures v in Versions(a2) && Version.Canonical(v) {
      var i :| 0 <= i < |a1| && Versions(a1)[i] == v;
      assert a1[i] in multiset(a2);
      var j :| 0 <= j < |a2| && a2[j] == a1[i];
      assert Versions(a2)[j] == v;
    }
    forall v | v in Versions(a2) ensures v in Versions(a1) {
      var i :| 0 <= i < |a2| && Versions(a2)[i] == v;
      assert a2[i] in multiset(a1);
      var j :| 0 <= j < |a1| && a1[j] == a2[i];
      assert Versions(a1)[j] == v;
    }
  }

  lemma ReceiveInOrder(c: FanOut.Config<ClusterAdv>, i: nat, j: nat, a: ClusterAdv, b: ClusterAdv)
    returns (s: FanOut.State)
    requires c.nested && |c.outs| == 2 && i < 2 && j < 2 && i != j
    requires c.outs[i].item == Some(a) && c.outs[j].item == Some(b)
    ensures FanOut.Reachable(c, s) && s.main.Returned? && FanOut.ItemsInOrder(c, s.items.got, [a, b])
  {
    var order: seq<nat> := [i, j];
    s := FanOut.EveryOrderHappens(c, order);
    assert order[..1] == [i] && [i][..0] == [];
    assert FanOut.ItemsOf(c, [i]) == [i];
    assert FanOut.ItemsOf(c, order) == order;
  }

  lemma VersionOfTwo(generation: int64, replicas: int32, a: ClusterAdv, b: ClusterAdv)
    ensures StatusFor(generation, replicas, [a, b]).version == Version.MergeAll([a.version, b.version])
  {
    assert Versions([a, b]) == [a.version, b.version];
  }

  /** The order does show for other versions: two clusters answer, with "v1" and with "1"; either can be
      received first, and the two runs of the same fan-out report different versions. */
  lemma VersionCanDependOnSchedule(c: FanOut.Config<ClusterAdv>, x: ClusterAdv, y: ClusterAdv, generation: int64,
                                   replicas: int32)
    returns (s1: FanOut.State, s2: FanOut.State)
    requires x.version == "v1" && y.version == "1"
    requires c.nested && |c.outs| == 2 && c.outs[0].item == Some(x) && c.outs[1].item == Some(y)
    ensures FanOut.Reachable(c, s1) && s1.main.Returned? && FanOut.ItemsInOrder(c, s1.items.got, [x, y])
    ensures FanOut.Reachable(c, s2) && s2.main.Returned? && FanOut.ItemsInOrder(c, s2.items.got, [y, x])
    ensures StatusFor(generation, replicas, [x, y]).version != StatusFor(generation, replicas, [y, x]).version
  {
    s1 := ReceiveInOrder(c, 0, 1, x, y);
    s2 := ReceiveInOrder(c, 1, 0, y, x);
    VersionOfTwo(generation, replicas, x, y);
    VersionOfTwo(generation, replicas, y, x);
    VersionOrder.OrderShows(x.version, y.version);
  }
}
