/** Which AdvDeployments of clusters that left the spec may be removed: the plain list, the zone-aware
    list with its quadratic scan, and what removing the listed ones does to a zone. */
module ZoneList {
  import opened Prelude
  import opened Api

  const ZONE := "sym-available-zone"
  const CLUSTER_INFO := "sym-cluster-info"
  const DEFAULT_LABEL := "null"

  /** A cluster of the AppSet's topology. */
  datatype Target = Target(name: string, meta: map<string, string>)

  /** The parts of an AdvDeployment that migration looks at. */
  datatype Adv = Adv(labels: map<string, string>, generation: int64, observedGeneration: int64, status: AppStatus)

  /** One client's answer to Get: None for not found and for any other error. */
  datatype View = View(cluster: string, adv: Option<Adv>)

  /** advStatusSituation. */
  datatype Situation = Situation(cluster: string, zone: string, installing: bool)

  function GetOr(m: map<string, string>, key: string, def: string): string {
    if key in m then m[key] else def
  }

  /** makeAdvdeploymentLabel. */
  function MakeLabels(t: Target): map<string, string> {
    map[CLUSTER_INFO := GetOr(t.meta, CLUSTER_INFO, t.name), ZONE := GetOr(t.meta, ZONE, DEFAULT_LABEL)]
  }

  predicate IsInstalling(a: Adv) { a.generation != a.observedGeneration || a.status != Running }

  function Names(spec: seq<Target>): set<string> { set t | t in spec :: t.name }

  function Zones(spec: seq<Target>): set<string> { set t | t in spec :: GetOr(t.meta, ZONE, "") }

  /** What is remembered of one view: nothing without an AdvDeployment or without a zone label. */
  function SituationOf(v: View): seq<Situation> {
    if v.adv.Some? && ZONE in v.adv.value.labels
    then [Situation(v.cluster, v.adv.value.labels[ZONE], IsInstalling(v.adv.value))] else []
  }

  function Situations(views: seq<View>): seq<Situation> {
    if views == [] then [] else Situations(views[..|views| - 1]) + SituationOf(views[|views| - 1])
  }

  /** Members of the same zone in other clusters that are still installing. */
  predicate Blocks(b: Situation, a: Situation) { a.zone == b.zone && a.cluster != b.cluster && b.installing }

  /** How many members block a. */
  function BlockCount(sits: seq<Situation>, a: Situation): nat {
    if sits == [] then 0 else BlockCount(sits[..|sits| - 1], a) + if Blocks(sits[|sits| - 1], a) then 1 else 0
  }

  lemma {:induction false} NoneBlocks(sits: seq<Situation>, a: Situation)
    ensures BlockCount(sits, a) == 0 <==> forall b :: b in sits ==> !Blocks(b, a)
  {
    if sits == [] {
    } else {
      NoneBlocks(sits[..|sits| - 1], a);
      assert sits == sits[..|sits| - 1] + [sits[|sits| - 1]];
    }
  }

  /** Whether another cluster has a member in the zone. */
  predicate HasOther(sits: seq<Situation>, a: Situation) {
    sits != [] &&
    (HasOther(sits[..|sits| - 1], a) || (sits[|sits| - 1].zone == a.zone && sits[|sits| - 1].cluster != a.cluster))
  }

  lemma {:induction false} HasOtherIff(sits: seq<Situation>, a: Situation)
    ensures HasOther(sits, a) <==> exists b :: b in sits && b.zone == a.zone && b.cluster != a.cluster
  {
    if sits == [] {
    } else {
      var front, last := sits[..|sits| - 1], sits[|sits| - 1];
      HasOtherIff(front, a);
      assert sits == front + [last];
      assert forall b :: b in sits <==> b in front || b == last;
    }
  }

  lemma {:induction false} NoOtherNoBlock(sits: seq<Situation>, a: Situation)
    ensures BlockCount(sits, a) > 0 ==> HasOther(sits, a)
  {
    if sits == [] {
    } else {
      NoOtherNoBlock(sits[..|sits| - 1], a);
    }
  }

  /** The meaning of the scan: a cluster outside the spec may be cleared when its zone is not wanted,
      or when nothing else in its zone is installing. */
  predicate Removable(spec: seq<Target>, sits: seq<Situation>, a: Situation) {
    && a.cluster !in Names(spec)
    && (a.zone !in Zones(spec) || forall b :: b in sits ==> !Blocks(b, a))
  }

  function RemovableNames(spec: seq<Target>, all: seq<Situation>, sits: seq<Situation>): seq<string> {
    if sits == [] then []
    else
      var a := sits[|sits| - 1];
      RemovableNames(spec, all, sits[..|sits| - 1]) + if Removable(spec, all, a) then [a.cluster] else []
  }

  function UnexpectedSync(spec: seq<Target>, views: seq<View>): seq<string> {
    if "" in Zones(spec) then [] else RemovableNames(spec, Situations(views), Situations(views))
  }

  /** getUnexpectAdvdeploymentClusterListSync: an expected cluster of unknown zone ends it with an
      empty list; otherwise the two nested scans list the removable clusters in order. */
  method GetUnexpectedSync(spec: seq<Target>, views: seq<View>) returns (list: seq<string>)
    ensures list == UnexpectedSync(spec, views)
  {
    var expectZones: set<string>, expectClusters: set<string> := {}, {};
    for i := 0 to |spec|
      invariant expectZones == Zones(spec[..i]) && expectClusters == Names(spec[..i])
      invariant "" !in expectZones
    {
      SpecSnoc(spec, i);
      if GetOr(spec[i].meta, ZONE, "") == "" {
        assert spec[i] in spec;
        return [];
      }
      expectZones := expectZones + {GetOr(spec[i].meta, ZONE, "")};
      expectClusters := expectClusters + {spec[i].name};
    }
    assert spec[..|spec|] == spec;
    var actual := Collect(views);
    list := ListRemovable(spec, expectZones, expectClusters, actual);
  }

  /** The outer loop over what was remembered. */
  method ListRemovable(ghost spec: seq<Target>, expectZones: set<string>, expectClusters: set<string>,
                       actual: seq<Situation>) returns (list: seq<string>)
    requires expectZones == Zones(spec) && expectClusters == Names(spec)
    ensures list == RemovableNames(spec, actual, actual)
  {
    list := [];
    for i := 0 to |actual|
      invariant list == RemovableNames(spec, actual, actual[..i])
    {
      assert actual[..i + 1][..i] == actual[..i];
      var a := actual[i];
      RemovableByScan(spec, actual, a);
      if a.cluster in expectClusters { continue; }
      if a.zone !in expectZones {
        list := list + [a.cluster];
        continue;
      }
      var exist, installingCount := Scan(actual, a);
      if !exist || (exist && installingCount == 0) {
        list := list + [a.cluster];
      }
    }
    assert actual[..|actual|] == actual;
  }

  /** What the scan finds decides. */
  lemma RemovableByScan(spec: seq<Target>, sits: seq<Situation>, a: Situation)
    ensures Removable(spec, sits, a) <==>
      && a.cluster !in Names(spec)
      && (a.zone !in Zones(spec) || !HasOther(sits, a) || BlockCount(sits, a) == 0)
  {
    NoneBlocks(sits, a);
    NoOtherNoBlock(sits, a);
  }

  lemma SpecSnoc(spec: seq<Target>, i: nat)
    requires i < |spec|
    ensures Zones(spec[..i + 1]) == Zones(spec[..i]) + {GetOr(spec[i].meta, ZONE, "")}
    ensures Names(spec[..i + 1]) == Names(spec[..i]) + {spec[i].name}
  {
    assert spec[..i + 1] == spec[..i] + [spec[i]];
  }

  /** The loop over the clients. */
  method Collect(views: seq<View>) returns (actual: seq<Situation>)
    ensures actual == Situations(views)
  {
    actual := [];
    for i := 0 to |views|
      invariant actual == Situations(views[..i])
    {
      assert views[..i + 1][..i] == views[..i];
      if views[i].adv.None? { continue; }
      var adv := views[i].adv.value;
      if ZONE !in adv.labels { continue; }
      actual := actual + [Situation(views[i].cluster, adv.labels[ZONE], IsInstalling(adv))];
    }
    assert views[..|views|] == views;
  }

  /** The inner loop: is there another cluster in the zone, and how many of those are installing. */
  method Scan(actual: seq<Situation>, a: Situation) returns (exist: bool, installingCount: nat)
    ensures exist == HasOther(actual, a) && installingCount == BlockCount(actual, a)
  {
    exist, installingCount := false, 0;
    for j := 0 to |actual|
      invariant exist == HasOther(actual[..j], a) && installingCount == BlockCount(actual[..j], a)
    {
      assert actual[..j + 1][..j] == actual[..j];
      if a.zone == actual[j].zone && a.cluster != actual[j].cluster {
        exist := true;
        if actual[j].installing { installingCount := installingCount + 1; }
      }
    }
    assert actual[..|actual|] == actual;
  }

  /** getUnexpectAdvdeploymentClusterList, for an AppSet that is ready everywhere. */
  function Unexpected(spec: seq<Target>, views: seq<View>): seq<string> {
    if views == [] then []
    else
      var v := views[|views| - 1];
      Unexpected(spec, views[..|views| - 1]) + if v.adv.Some? && v.cluster !in Names(spec) then [v.cluster] else []
  }

  method GetUnexpected(spec: seq<Target>, views: seq<View>) returns (list: seq<string>)
    ensures list == Unexpected(spec, views)
  {
    var expected: set<string> := {};
    for i := 0 to |spec|
      invariant expected == Names(spec[..i])
    {
      SpecSnoc(spec, i);
      expected := expected + {spec[i].name};
    }
    assert spec[..|spec|] == spec;
    list := [];
    for i := 0 to |views|
      invariant list == Unexpected(spec, views[..i])
    {
      assert views[..i + 1][..i] == views[..i];
      if views[i].adv.None? { continue; }
      if views[i].cluster !in expected { list := list + [views[i].cluster]; }
    }
    assert views[..|views|] == views;
  }

  // ---------------------------------------------------------------- the lists name the right clusters

  lemma {:induction false} RemovableNamesExactly(spec: seq<Target>, all: seq<Situation>, sits: seq<Situation>,
                                                 name: string)
    ensures name in RemovableNames(spec, all, sits) <==>
              exists a :: a in sits && a.cluster == name && Removable(spec, all, a)
  {
    if sits == [] {
    } else {
      var front, last := sits[..|sits| - 1], sits[|sits| - 1];
      RemovableNamesExactly(spec, all, front, name);
      assert sits == front + [last];
      assert forall c :: c in sits <==> c in front || c == last;
    }
  }

  // ---------------------------------------------------------------- in the fields of what was read

  /** The view shows an AdvDeployment labelled with the zone. */
  predicate InZone(v: View, zone: string) {
    v.adv.Some? && "sym-available-zone" in v.adv.value.labels && v.adv.value.labels["sym-available-zone"] == zone
  }

  /** The view shows an AdvDeployment whose generation is observed and whose status is Running. */
  predicate UpAndRunning(v: View)
    requires v.adv.Some?
  {
    v.adv.value.generation == v.adv.value.observedGeneration && v.adv.value.status == Running
  }

  lemma {:induction false} SituationsExactly(views: seq<View>, s: Situation)
    ensures s in Situations(views) <==>
              exists i :: 0 <= i < |views| && views[i].cluster == s.cluster && InZone(views[i], s.zone)
                          && (s.installing <==> !UpAndRunning(views[i]))
  {
    if views == [] {
    } else {
      var front, last := views[..|views| - 1], views[|views| - 1];
      SituationsExactly(front, s);
      assert s in SituationOf(last) <==>
               last.cluster == s.cluster && InZone(last, s.zone) && (s.installing <==> !UpAndRunning(last));
      if i :| 0 <= i < |front| && front[i].cluster == s.cluster && InZone(front[i], s.zone)
              && (s.installing <==> !UpAndRunning(front[i]))
      {
        assert views[i] == front[i];
      }
    }
  }

  /** The spec wants the zone. */
  predicate Wants(spec: seq<Target>, zone: string) {
    exists t :: t in spec && "sym-available-zone" in t.meta && t.meta["sym-available-zone"] == zone
  }

  /** View i may be cleared: nobody wants its zone, or every other cluster's AdvDeployment seen in it is
      observed and Running. */
  predicate MayClear(spec: seq<Target>, views: seq<View>, i: nat)
    requires i < |views|
  {
    && views[i].adv.Some? && "sym-available-zone" in views[i].adv.value.labels
    && var zone := views[i].adv.value.labels["sym-available-zone"];
    Wants(spec, zone) ==>
      forall j :: 0 <= j < |views| && InZone(views[j], zone) && views[j].cluster != views[i].cluster ==>
          UpAndRunning(views[j])
  }

  lemma RemovableInFields(spec: seq<Target>, views: seq<View>, i: nat, s: Situation)
    requires i < |views| && views[i].cluster == s.cluster && InZone(views[i], s.zone)
    requires "" !in Zones(spec)
    ensures Removable(spec, Situations(views), s) <==> s.cluster !in Names(spec) && MayClear(spec, views, i)
  {
    var sits := Situations(views);
    assert s.zone in Zones(spec) <==> Wants(spec, s.zone) by {
      if s.zone in Zones(spec) {
        var t :| t in spec && GetOr(t.meta, ZONE, "") == s.zone;
      }
      if Wants(spec, s.zone) {
        var t :| t in spec && ZONE in t.meta && t.meta[ZONE] == s.zone;
        assert GetOr(t.meta, ZONE, "") in Zones(spec);
      }
    }
    assert (forall b :: b in sits ==> !Blocks(b, s)) <==>
             forall j :: 0 <= j < |views| && InZone(views[j], s.zone) && views[j].cluster != s.cluster ==>
                 UpAndRunning(views[j]) by {
      NobodyBlocksInFields(views, s);
    }
  }

  lemma NobodyBlocksInFields(views: seq<View>, s: Situation)
    ensures (forall b :: b in Situations(views) ==> !Blocks(b, s)) <==>
              forall j :: 0 <= j < |views| && InZone(views[j], s.zone) && views[j].cluster != s.cluster ==>
                  UpAndRunning(views[j])
  {
    var sits := Situations(views);
    if forall b :: b in sits ==> !Blocks(b, s) {
      forall j | 0 <= j < |views| && InZone(views[j], s.zone) && views[j].cluster != s.cluster
        ensures UpAndRunning(views[j])
      {
        var b := Situation(views[j].cluster, s.zone, !UpAndRunning(views[j]));
        SituationsExactly(views, b);
        assert b in sits && !Blocks(b, s);
      }
    } else {
      var b :| b in sits && Blocks(b, s);
      SituationsExactly(views, b);
    }
  }

  /** The zone-aware list in the fields of what was read: it names a cluster exactly when every entry of the
      spec has a zone, the cluster is not in the spec, and some view shows an AdvDeployment there, with a zone
      label, that may be cleared. */
  lemma ListedIff(spec: seq<Target>, views: seq<View>, name: string)
    ensures name in UnexpectedSync(spec, views) <==>
      && (forall t :: t in spec ==> "sym-available-zone" in t.meta && t.meta["sym-available-zone"] != "")
      && (forall t :: t in spec ==> t.name != name)
      && exists i :: 0 <= i < |views| && views[i].cluster == name && MayClear(spec, views, i)
  {
    var sits := Situations(views);
    EverySpecZone(spec);
    assert name in Names(spec) <==> exists t :: t in spec && t.name == name;
    RemovableNamesExactly(spec, sits, sits, name);
    if "" !in Zones(spec) {
      if a :| a in sits && a.cluster == name && Removable(spec, sits, a) {
        SituationsExactly(views, a);
        var i :| 0 <= i < |views| && views[i].cluster == name && InZone(views[i], a.zone);
        RemovableInFields(spec, views, i, a);
      }
      if name !in Names(spec) {
        forall i | 0 <= i < |views| && views[i].cluster == name && MayClear(spec, views, i)
          ensures name in UnexpectedSync(spec, views)
        {
          var s := Situation(name, views[i].adv.value.labels[ZONE], !UpAndRunning(views[i]));
          SituationsExactly(views, s);
          RemovableInFields(spec, views, i, s);
        }
      }
    }
  }

  /** View i shows a cluster outside the spec that may be cleared. */
  predicate Clears(spec: seq<Target>, views: seq<View>, i: nat)
    requires i < |views|
  {
    views[i].cluster !in Names(spec) && MayClear(spec, views, i)
  }

  /** The positions below n that are marked. */
  function Marked(flags: seq<bool>, n: nat): (r: seq<nat>)
    requires n <= |flags|
    ensures forall k :: 0 <= k < |r| ==> r[k] < n
  {
    if n == 0 then [] else Marked(flags, n - 1) + if flags[n - 1] then [n - 1] else []
  }

  lemma {:induction false} MarkedAscend(flags: seq<bool>, n: nat)
    requires n <= |flags|
    ensures forall j, k :: 0 <= j < k < |Marked(flags, n)| ==> Marked(flags, n)[j] < Marked(flags, n)[k]
    ensures forall i :: i in Marked(flags, n) <==> 0 <= i < n && flags[i]
  {
    if n == 0 {
    } else {
      MarkedAscend(flags, n - 1);
    }
  }

  /** A list that grows by the n-th name exactly when n is marked holds the names at the marked positions. */
  lemma {:induction false} Assembled(lists: seq<seq<string>>, names: seq<string>, flags: seq<bool>, n: nat)
    requires |lists| == |flags| + 1 == |names| + 1 && lists[0] == [] && n <= |flags|
    requires forall k :: 0 <= k < |flags| ==> lists[k + 1] == lists[k] + if flags[k] then [names[k]] else []
    ensures |lists[n]| == |Marked(flags, n)|
    ensures forall k :: 0 <= k < |lists[n]| ==> lists[n][k] == names[Marked(flags, n)[k]]
  {
    if n == 0 {
    } else {
      Assembled(lists, names, flags, n - 1);
      assert lists[(n - 1) + 1] == lists[n];
    }
  }

  /** One view more, one name more or none. */
  lemma ListedSnoc(spec: seq<Target>, views: seq<View>, n: nat)
    requires n < |views| && "" !in Zones(spec)
    ensures var all := Situations(views);
      RemovableNames(spec, all, Situations(views[..n + 1])) ==
        RemovableNames(spec, all, Situations(views[..n]))
        + if Clears(spec, views, n) then [views[n].cluster] else []
  {
    var v, front := views[n], Situations(views[..n]);
    assert views[..n + 1][..n] == views[..n];
    if SituationOf(v) == [] {
      assert Situations(views[..n + 1]) == front;
    } else {
      var s := SituationOf(v)[0];
      assert Situations(views[..n + 1]) == front + [s] && (front + [s])[..|front|] == front;
      RemovableInFields(spec, views, n, s);
    }
  }

  /** The list over the first k views, for every k. */
  lemma {:induction false} Lists(spec: seq<Target>, views: seq<View>, all: seq<Situation>, n: nat)
    returns (lists: seq<seq<string>>)
    requires n <= |views|
    ensures |lists| == n + 1
    ensures forall k :: 0 <= k <= n ==> lists[k] == RemovableNames(spec, all, Situations(views[..k]))
  {
    if n == 0 { return [[]]; }
    lists := Lists(spec, views, all, n - 1);
    lists := lists + [RemovableNames(spec, all, Situations(views[..n]))];
  }

  lemma ListsGrow(spec: seq<Target>, views: seq<View>, flags: seq<bool>, lists: seq<seq<string>>, k: nat)
    requires "" !in Zones(spec) && |flags| == |views| == |lists| - 1 && k < |views|
    requires flags[k] == Clears(spec, views, k)
    requires lists[k] == RemovableNames(spec, Situations(views), Situations(views[..k]))
    requires lists[k + 1] == RemovableNames(spec, Situations(views), Situations(views[..k + 1]))
    ensures lists[k + 1] == lists[k] + if flags[k] then [views[k].cluster] else []
  {
    ListedSnoc(spec, views, k);
  }

  lemma ListedAtMarked(spec: seq<Target>, views: seq<View>, names: seq<string>, flags: seq<bool>)
    requires "" !in Zones(spec) && |flags| == |names| == |views|
    requires forall i :: 0 <= i < |views| ==> names[i] == views[i].cluster && flags[i] == Clears(spec, views, i)
    ensures |UnexpectedSync(spec, views)| == |Marked(flags, |views|)|
    ensures forall k :: 0 <= k < |UnexpectedSync(spec, views)| ==>
              UnexpectedSync(spec, views)[k] == names[Marked(flags, |views|)[k]]
  {
    var lists := Lists(spec, views, Situations(views), |views|);
    forall k | 0 <= k < |views| ensures lists[k + 1] == lists[k] + if flags[k] then [names[k]] else [] {
      ListsGrow(spec, views, flags, lists, k);
    }
    Assembled(lists, names, flags, |views|);
    assert views[..|views|] == views;
  }

  /** And it names the views' clusters in the order of the views, each view at most once: they are the clusters
      at the ascending positions of those that are outside the spec and may be cleared. */
  lemma ListedInOrder(spec: seq<Target>, views: seq<View>) returns (at: seq<nat>)
    requires forall t :: t in spec ==> "sym-available-zone" in t.meta && t.meta["sym-available-zone"] != ""
    ensures |at| == |UnexpectedSync(spec, views)|
    ensures forall k :: 0 <= k < |at| ==> at[k] < |views| && UnexpectedSync(spec, views)[k] == views[at[k]].cluster
    ensures forall j, k :: 0 <= j < k < |at| ==> at[j] < at[k]
    ensures forall i :: i in at <==> 0 <= i < |views| && MayClear(spec, views, i)
                                     && forall t :: t in spec ==> t.name != views[i].cluster
  {
    EverySpecZone(spec);
    var flags := seq(|views|, i requires 0 <= i < |views| => Clears(spec, views, i));
    at := Marked(flags, |views|);
    ListedAtMarked(spec, views, seq(|views|, i requires 0 <= i < |views| => views[i].cluster), flags);
    MarkedAscend(flags, |views|);
    assert forall name :: name in Names(spec) <==> exists t :: t in spec && t.name == name;
  }

  lemma EverySpecZone(spec: seq<Target>)
    ensures "" in Zones(spec) <==> exists t :: t in spec && (ZONE !in t.meta || t.meta[ZONE] == "")
  {
    if t :| t in spec && (ZONE !in t.meta || t.meta[ZONE] == "") {
      assert GetOr(t.meta, ZONE, "") in Zones(spec);
    }
  }

  /** So an AdvDeployment of another cluster in a wanted zone that is seen with a generation not observed, or
      not Running, keeps a cluster with a single view there off the list. */
  lemma InstallingElsewhereKeeps(spec: seq<Target>, views: seq<View>, i: nat, j: nat, zone: string)
    requires i < |views| && j < |views| && views[i].cluster != views[j].cluster
    requires forall k :: 0 <= k < |views| && views[k].cluster == views[i].cluster ==> k == i
    requires Wants(spec, zone) && InZone(views[i], zone) && InZone(views[j], zone)
    requires views[j].adv.value.generation != views[j].adv.value.observedGeneration
          || views[j].adv.value.status != Running
    ensures views[i].cluster !in UnexpectedSync(spec, views)
  {
    ListedIff(spec, views, views[i].cluster);
    assert !UpAndRunning(views[j]);
  }

  /** The plain list: the clusters outside the spec that answered with an AdvDeployment. */
  lemma {:induction false} UnexpectedIff(spec: seq<Target>, views: seq<View>, name: string)
    ensures name in Unexpected(spec, views) <==>
      && (forall t :: t in spec ==> t.name != name)
      && exists i :: 0 <= i < |views| && views[i].cluster == name && views[i].adv.Some?
  {
    assert name in Names(spec) <==> exists t :: t in spec && t.name == name;
    if views == [] {
    } else {
      var front, last := views[..|views| - 1], views[|views| - 1];
      UnexpectedIff(spec, front, name);
      assert views == front + [last];
      if i :| 0 <= i < |front| && front[i].cluster == name && front[i].adv.Some? { assert views[i] == front[i]; }
    }
  }

  /** Neither list ever names a cluster of the spec. */
  lemma {:induction false} NeverExpected(spec: seq<Target>, views: seq<View>, name: string)
    requires name in Names(spec)
    ensures name !in UnexpectedSync(spec, views) && name !in Unexpected(spec, views)
  {
    RemovableNamesExactly(spec, Situations(views), Situations(views), name);
    if views == [] {
    } else {
      NeverExpected(spec, views[..|views| - 1], name);
    }
  }

  // ---------------------------------------------------------------- the one-pass form

  /** Cluster names are distinct: the multi-cluster client holds one client per name. */
  predicate DistinctClusters(sits: seq<Situation>) {
    forall i, j :: 0 <= i < j < |sits| ==> sits[i].cluster != sits[j].cluster
  }

  predicate InstallingAt(a: Situation, zone: string) { a.zone == zone && a.installing }

  function Flags(sits: seq<Situation>, zone: string): seq<int> {
    seq(|sits|, i requires 0 <= i < |sits| => if InstallingAt(sits[i], zone) then 1 else 0)
  }

  /** One pass: how many members of the zone are installing. */
  function InstallingIn(sits: seq<Situation>, zone: string): int { Sum(Flags(sits, zone)) }

  lemma {:induction false} FlagsSum(flags: seq<int>)
    requires forall i :: 0 <= i < |flags| ==> 0 <= flags[i] <= 1
    ensures Sum(flags) >= 0
    ensures Sum(flags) == 0 <==> forall i :: 0 <= i < |flags| ==> flags[i] == 0
  {
    if flags == [] {
    } else {
      var front := flags[..|flags| - 1];
      FlagsSum(front);
      if Sum(flags) == 0 {
        forall i | 0 <= i < |flags| ensures flags[i] == 0 { if i < |front| { assert front[i] == 0; } }
      }
    }
  }

  lemma InstallingElsewhere(sits: seq<Situation>, i: nat)
    requires i < |sits|
    ensures InstallingIn(sits, sits[i].zone) - (if sits[i].installing then 1 else 0) == 0
       <==> forall k :: 0 <= k < |sits| && k != i ==> !InstallingAt(sits[k], sits[i].zone)
  {
    var flags := Flags(sits, sits[i].zone);
    var others := Without(flags, i);
    SumWithout(flags, i);
    FlagsSum(others);
    if forall k :: 0 <= k < |others| ==> others[k] == 0 {
      forall k | 0 <= k < |sits| && k != i ensures !InstallingAt(sits[k], sits[i].zone) {
        assert others[if k < i then k else k - 1] == flags[k];
      }
    }
  }

  /** The quadratic scan is a one-pass rule: a member outside the spec is removable exactly when its
      zone is not wanted or the zone's installing count, less its own contribution, is zero. */
  lemma OnePassRule(spec: seq<Target>, sits: seq<Situation>, i: nat)
    requires DistinctClusters(sits) && i < |sits|
    ensures var a := sits[i];
      Removable(spec, sits, a) <==>
        && a.cluster !in Names(spec)
        && (a.zone !in Zones(spec) || InstallingIn(sits, a.zone) - (if a.installing then 1 else 0) == 0)
  {
    var a := sits[i];
    InstallingElsewhere(sits, i);
    if forall b :: b in sits ==> !Blocks(b, a) {
      forall k | 0 <= k < |sits| && k != i ensures !InstallingAt(sits[k], a.zone) {
        assert sits[k] in sits && !Blocks(sits[k], a);
      }
    }
    if forall k :: 0 <= k < |sits| && k != i ==> !InstallingAt(sits[k], a.zone) {
      forall b | b in sits ensures !Blocks(b, a) {
        var k :| 0 <= k < |sits| && sits[k] == b;
      }
    }
  }

  /** So two installing members of a wanted zone block every removal there. */
  lemma TwoInstallingBlockTheZone(spec: seq<Target>, sits: seq<Situation>, i: nat)
    requires DistinctClusters(sits) && i < |sits|
    requires sits[i].zone in Zones(spec) && InstallingIn(sits, sits[i].zone) >= 2
    ensures !Removable(spec, sits, sits[i])
  {
    OnePassRule(spec, sits, i);
  }

  // ---------------------------------------------------------------- what is left of a zone

  ghost predicate HasRunning(sits: seq<Situation>, zone: string) {
    exists i :: 0 <= i < |sits| && sits[i].zone == zone && !sits[i].installing
  }

  /** Some running member of the zone is not on the list. */
  ghost predicate KeepsRunning(sits: seq<Situation>, zone: string, list: seq<string>) {
    exists i :: 0 <= i < |sits| && sits[i].zone == zone && !sits[i].installing && sits[i].cluster !in list
  }

  ghost predicate HasInstalling(sits: seq<Situation>, zone: string) {
    exists i :: 0 <= i < |sits| && sits[i].zone == zone && sits[i].installing
  }

  ghost predicate HasExpected(spec: seq<Target>, sits: seq<Situation>, zone: string) {
    exists i :: 0 <= i < |sits| && sits[i].zone == zone && sits[i].cluster in Names(spec)
  }

  lemma ListedIffRemovable(spec: seq<Target>, sits: seq<Situation>, i: nat)
    requires DistinctClusters(sits) && i < |sits|
    ensures sits[i].cluster in RemovableNames(spec, sits, sits) <==> Removable(spec, sits, sits[i])
  {
    RemovableNamesExactly(spec, sits, sits, sits[i].cluster);
    assert sits[i] in sits;
    if a :| a in sits && a.cluster == sits[i].cluster && Removable(spec, sits, a) {
      var j :| 0 <= j < |sits| && sits[j] == a;
      assert j == i;
    }
  }

  lemma ListedIffRemovableAll(spec: seq<Target>, views: seq<View>)
    requires DistinctClusters(Situations(views)) && "" !in Zones(spec)
    ensures var sits := Situations(views);
      forall i :: 0 <= i < |sits| ==>
          (sits[i].cluster in UnexpectedSync(spec, views) <==> Removable(spec, sits, sits[i]))
  {
    var sits := Situations(views);
    forall i | 0 <= i < |sits|
      ensures sits[i].cluster in UnexpectedSync(spec, views) <==> Removable(spec, sits, sits[i])
    {
      ListedIffRemovable(spec, sits, i);
    }
  }

  lemma InstallingMemberProtects(spec: seq<Target>, sits: seq<Situation>, zone: string, r: nat)
    requires zone in Zones(spec) && HasInstalling(sits, zone) && DistinctClusters(sits)
    requires r < |sits| && sits[r].zone == zone && !sits[r].installing
    ensures !Removable(spec, sits, sits[r])
  {
    var m :| 0 <= m < |sits| && sits[m].zone == zone && sits[m].installing;
    assert sits[m].cluster != sits[r].cluster by { assert m < r || r < m; }
    assert sits[m] in sits && Blocks(sits[m], sits[r]);
  }

  lemma NobodyProtects(spec: seq<Target>, sits: seq<Situation>, zone: string, i: nat)
    requires !HasInstalling(sits, zone) && !HasExpected(spec, sits, zone)
    requires i < |sits| && sits[i].zone == zone
    ensures Removable(spec, sits, sits[i])
  {
    forall b | b in sits ensures !Blocks(b, sits[i]) {
      var k :| 0 <= k < |sits| && sits[k] == b;
    }
  }

  /** The migration goal "a wanted zone that runs keeps running" holds for the removals of one list
      exactly when the zone has an installing member or an expected one. Otherwise all its running
      members are outside the spec and every one of them is removed. */
  lemma ZoneSurvivesIff(spec: seq<Target>, views: seq<View>, zone: string)
    requires DistinctClusters(Situations(views)) && "" !in Zones(spec)
    requires zone in Zones(spec) && HasRunning(Situations(views), zone)
    ensures var sits := Situations(views);
      KeepsRunning(sits, zone, UnexpectedSync(spec, views)) <==>
          HasInstalling(sits, zone) || HasExpected(spec, sits, zone)
  {
    var sits, list := Situations(views), UnexpectedSync(spec, views);
    ListedIffRemovableAll(spec, views);
    if HasInstalling(sits, zone) {
      var r :| 0 <= r < |sits| && sits[r].zone == zone && !sits[r].installing;
      InstallingMemberProtects(spec, sits, zone, r);
    } else if HasExpected(spec, sits, zone) {
      var x :| 0 <= x < |sits| && sits[x].zone == zone && sits[x].cluster in Names(spec);
      assert !sits[x].installing && !Removable(spec, sits, sits[x]);
    } else {
      forall i | 0 <= i < |sits| && sits[i].zone == zone ensures sits[i].cluster in list {
        NobodyProtects(spec, sits, zone, i);
      }
    }
  }

  lemma OneView(v: View)
    ensures Situations([v]) == SituationOf(v)
  {
    assert [v][..0] == [];
  }

  lemma OneSituation(spec: seq<Target>, all: seq<Situation>, s: Situation)
    ensures RemovableNames(spec, all, [s]) == if Removable(spec, all, s) then [s.cluster] else []
  {
    assert [s][..0] == [];
  }

  lemma OneUnexpected(spec: seq<Target>, v: View)
    ensures Unexpected(spec, [v]) == if v.adv.Some? && v.cluster !in Names(spec) then [v.cluster] else []
  {
    assert [v][..0] == [];
  }

  lemma TwoViews(v: View, w: View)
    ensures Situations([v, w]) == SituationOf(v) + SituationOf(w)
  {
    assert [v, w][..1] == [v];
    OneView(v);
  }

  lemma TwoSituations(spec: seq<Target>, s: Situation, t: Situation)
    requires s.cluster !in Names(spec) && t.cluster in Names(spec) && s.zone == t.zone && s.zone in Zones(spec)
    ensures RemovableNames(spec, [s, t], [s, t]) == if t.installing then [] else [s.cluster]
  {
    assert [s, t][..1] == [s] && t in [s, t];
    OneSituation(spec, [s, t], s);
    assert Removable(spec, [s, t], s) <==> !Blocks(t, s);
  }

  lemma TwoUnexpected(spec: seq<Target>, v: View, w: View)
    requires v.cluster !in Names(spec) && w.cluster in Names(spec) && v.adv.Some?
    ensures Unexpected(spec, [v, w]) == [v.cluster]
  {
    assert [v, w][..1] == [v];
    OneUnexpected(spec, v);
  }

  /** The migration it is made for: the spec moves a zone from one cluster to another. The plain list names the
      old one, the zone-aware list does as soon as the new one is observed and Running. */
  lemma OldClusterIsListed(spec: seq<Target>, zone: string, old1: string, new1: string, before: Adv, after: Adv)
    requires old1 != new1 && zone != "" && spec == [Target(new1, map["sym-available-zone" := zone])]
    requires before.labels == after.labels == map["sym-available-zone" := zone]
    ensures Unexpected(spec, [View(old1, Some(before)), View(new1, Some(after))]) == [old1]
    ensures UnexpectedSync(spec, [View(old1, Some(before)), View(new1, Some(after))]) ==
              if after.generation == after.observedGeneration && after.status == Running then [old1] else []
  {
    var v, w := View(old1, Some(before)), View(new1, Some(after));
    assert Names(spec) == {new1} && Zones(spec) == {zone} by { assert spec[0] in spec; }
    TwoUnexpected(spec, v, w);
    TwoViews(v, w);
    var s, t := Situation(old1, zone, IsInstalling(before)), Situation(new1, zone, IsInstalling(after));
    assert SituationOf(v) == [s] && SituationOf(w) == [t] && [s] + [t] == [s, t];
    TwoSituations(spec, s, t);
  }

  /** The failing case is real: the spec moves zone "z" from cluster "old" to cluster "new"; if "new"
      has no AdvDeployment yet, the only running member of the zone is put on the list. */
  lemma LastMemberOfAZoneCanBeListed(spec: seq<Target>, views: seq<View>, adv: Adv)
    requires spec == [Target("new", map[ZONE := "z"])]
    requires adv == Adv(map[ZONE := "z"], 1, 1, Running)
    requires views == [View("old", Some(adv)), View("new", None)]
    ensures UnexpectedSync(spec, views) == ["old"]
  {
    var s := Situation("old", "z", false);
    assert views[..1] == [views[0]];
    OneView(views[0]);
    assert Situations(views) == [s];
    assert Zones(spec) == {"z"} && Names(spec) == {"new"} by { assert spec[0] in spec; }
    OneSituation(spec, [s], s);
  }
}
