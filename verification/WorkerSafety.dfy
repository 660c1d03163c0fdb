/** When the worker deletes, and what: garbage-collection safety of a whole run, and the exact effect
    of deleting through the address of a shared loop variable. */
module WorkerSafety {
  import opened Prelude
  import opened Api
  import opened Worker
  import StatusWrite

  // ---------------------------------------------------------------- how far a run gets

  /** The object has a converter, and converting and applying it work. */
  predicate GoesThrough(o: Rendered) {
    o.kind in {"Service", "Deployment", "StatefulSet", "Job"} && !o.convertFails && !o.applyFails
  }

  /** Applying the autoscaler of the object before m failed, and nothing has overwritten that error. */
  predicate HpaErrorAt(os: seq<Rendered>, m: nat)
    requires m <= |os|
  {
    m > 0 && os[m - 1].kind in {"Deployment", "StatefulSet"} && os[m - 1].hpaFails
  }

  /** m is the first object that does not go through, and has no converter. */
  predicate FirstUnsupported(os: seq<Rendered>, m: nat) {
    && m < |os| && os[m].kind !in {"Service", "Deployment", "StatefulSet", "Job"}
    && forall j :: 0 <= j < m ==> GoesThrough(os[j])
  }

  lemma {:induction false} UnsupportedGoesOn(os: seq<Rendered>, k: nat)
    requires k <= |os| && forall j :: 0 <= j < k ==> GoesThrough(os[j])
    ensures ApplyFrom(os, k).NoOwners? <==> exists m: nat :: FirstUnsupported(os, m) && !HpaErrorAt(os, m)
    decreases |os| - k
  {
    assert forall m: nat :: FirstUnsupported(os, m) ==> k <= m;
    if k == |os| {
    } else if GoesThrough(os[k]) {
      UnsupportedGoesOn(os, k + 1);
    } else {
      assert forall m: nat :: FirstUnsupported(os, m) ==> m <= k;
      assert os[k].kind !in {"Service", "Deployment", "StatefulSet", "Job"} ==> FirstUnsupported(os, k);
    }
  }

  /** Exactly when a run gets as far as the status: the AdvDeployment is live and well typed, and some
      rendering failed, or the first object that does not go through has no converter while no autoscaler
      error lingers from the one before, or all objects go through unchanged and no such error lingers
      from the last one. */
  lemma ReachesStatusIff(inp: Inputs)
    ensures ReachesStatus(inp) <==>
      && !inp.deleting && inp.typeOk
      && (AllRendered(inp.renderings) ==>
          var os := AllObjects(inp.renderings);
          || (exists m: nat :: FirstUnsupported(os, m) && !HpaErrorAt(os, m))
          || ((forall i :: 0 <= i < |os| ==> GoesThrough(os[i]) && !os[i].changed) && !HpaErrorAt(os, |os|)))
  {
    if AllRendered(inp.renderings) {
      var os := AllObjects(inp.renderings);
      UnsupportedGoesOn(os, 0);
      OwnersIffClean(os, 0);
      assert AnyChanged(os) <==> exists i :: 0 <= i < |os| && os[i].changed;
    }
  }

  function ObjectCount(rs: seq<Rendering>): nat
    requires AllRendered(rs)
  {
    if rs == [] then 0 else ObjectCount(rs[..|rs| - 1]) + |rs[|rs| - 1].value|
  }

  /** The objects are applied rendering by rendering, each in its own order. */
  lemma {:induction false} ObjectsInOrder(rs: seq<Rendering>, i: nat, j: nat)
    requires AllRendered(rs) && i < |rs| && j < |rs[i].value|
    ensures ObjectCount(rs[..i]) + j < |AllObjects(rs)| == ObjectCount(rs)
    ensures AllObjects(rs)[ObjectCount(rs[..i]) + j] == rs[i].value[j]
    decreases |rs|
  {
    var n := |rs| - 1;
    CountOfObjects(rs[..n]);
    if i == n {
    } else {
      ObjectsInOrder(rs[..n], i, j);
      assert rs[..n][..i] == rs[..i];
    }
  }

  lemma {:induction false} CountOfObjects(rs: seq<Rendering>)
    requires AllRendered(rs)
    ensures |AllObjects(rs)| == ObjectCount(rs)
  {
    if rs == [] {
    } else {
      CountOfObjects(rs[..|rs| - 1]);
    }
  }

  // ---------------------------------------------------------------- when anything is deleted

  predicate AllClean(os: seq<Rendered>) { forall i :: 0 <= i < |os| ==> Clean(os[i]) }

  /** The owner list reaches the next step exactly when every object was applied cleanly and no
      autoscaler error lingers from the last one. */
  lemma {:induction false} OwnersIffClean(os: seq<Rendered>, k: nat)
    requires k <= |os|
    ensures ApplyFrom(os, k).Owners? ==> ApplyFrom(os, k).list == OwnerNames(os)
    ensures ApplyFrom(os, k).Owners? <==>
            && !LingeringHpaError(os) && !AnyChanged(os)
            && forall i :: k <= i < |os| ==> Supported(os[i].kind) && !ApplyStops(os[i])
    decreases |os| - k
  {
    if k == |os| {
    } else {
      OwnersIffClean(os, k + 1);
    }
  }

  /** Safety of the clean-up over every run: a delete is issued exactly when the AdvDeployment is live
      and well typed, every pod set rendered, every rendered object was applied without error and
      without change (and no autoscaler error lingers), the owner list is not empty, some listed
      workload is not on it, and no more is desired than available. So a render failure or an
      unsupported kind, which lets the pipeline go on, still deletes nothing. */
  lemma DeletesExactlyWhen(inp: Inputs)
    ensures DeletesOf(inp) != [] <==>
      && !inp.deleting && inp.typeOk && AllRendered(inp.renderings) && Chosen(inp).Some?
      && var os, ws := AllObjects(inp.renderings), Chosen(inp).value;
      && os != [] && AllClean(os) && !LingeringHpaError(os)
      && (exists i :: 0 <= i < |ws| && IsUnused(ws[i], OwnerNames(os)))
      && StatusOf(ws, OwnerNames(os)).desired <= StatusOf(ws, OwnerNames(os)).available
  {
    if AllRendered(inp.renderings) && Chosen(inp).Some? {
      var os, ws := AllObjects(inp.renderings), Chosen(inp).value;
      OwnersIffClean(os, 0);
      ChosenIsPlural(inp);
      OwnedIsShorter(ws, OwnerNames(os));
      OwnedIsShorter(ws, []);
      assert AllClean(os) <==>
               !AnyChanged(os) && forall i :: 0 <= i < |os| ==> Supported(os[i].kind) && !ApplyStops(os[i]);
    } else if Chosen(inp).Some? {
      ChosenIsPlural(inp);
      OwnedIsShorter(Chosen(inp).value, []);
    }
  }

  // ---------------------------------------------------------------- the shared loop variable

  /** Every delete of a run hits the last listed workload, so "only unused workloads are deleted" holds
      exactly when the last listed one is unused. */
  lemma DeletesOwnedIff(ws: seq<Workload>, owners: seq<string>)
    requires ws != [] && DeletesFor(ws, owners) != []
    ensures (exists d :: d in DeletesFor(ws, owners) && !IsUnused(d, owners)) <==> !IsUnused(ws[|ws| - 1], owners)
  {
    var ds := DeletesFor(ws, owners);
    assert ds[0] == ws[|ws| - 1] && ds[0] in ds;
  }

  /** And "exactly the unused ones are deleted" holds exactly when the last one is the only unused one. */
  lemma DeletesExactlyUnusedIff(ws: seq<Workload>, owners: seq<string>)
    requires ws != [] && DeletesFor(ws, owners) != []
    requires forall i, j :: 0 <= i < j < |ws| ==> ws[i] != ws[j]
    ensures (forall w :: w in DeletesFor(ws, owners) <==> w in ws && IsUnused(w, owners))
       <==> forall i :: 0 <= i < |ws| ==> (IsUnused(ws[i], owners) <==> i == |ws| - 1)
  {
    var ds, last := DeletesFor(ws, owners), ws[|ws| - 1];
    assert ds[0] == last && ds[0] in ds && last in ws;
    if forall w :: w in ds <==> w in ws && IsUnused(w, owners) {
      forall i | 0 <= i < |ws| ensures IsUnused(ws[i], owners) <==> i == |ws| - 1 {
        assert ws[i] in ws;
      }
    }
  }

  /** It does happen: an unused Deployment listed before an owned one gets the owned one deleted. */
  lemma AnOwnedDeploymentCanBeDeleted(w: Workload, keep: Workload, ws: seq<Workload>, owners: seq<string>)
    requires w == Workload("ns", "old", "v1", 1, 1, 0, 1, 1, 1) && keep == Workload("ns", "new", "v1", 1, 1, 0, 1, 1, 1)
    requires ws == [w, keep] && owners == ["Deployment:ns/new"]
    ensures DeletesFor(ws, owners) == [keep] && !IsUnused(keep, owners)
  {
    var nw, nk := FormattedName(DEPLOYMENT, "ns", "old"), FormattedName(DEPLOYMENT, "ns", "new");
    assert nk == "Deployment:ns/new" && nw[|nw| - 1] != nk[|nk| - 1];
    assert ws[..1] == [w] && [w][..0] == [];
    assert Owned([w], owners) == [] && Owned(ws, owners) == [keep];
    assert Desireds([keep]) == [1] && Availables([keep]) == [1] && [1][..0] == [];
    assert Total32([1]) == 1;
  }

  // ---------------------------------------------------------------- the status in the workloads' own figures

  lemma {:induction false} OwnedMultiplicity(ws: seq<Workload>, owners: seq<string>, w: Workload)
    ensures multiset(Owned(ws, owners))[w] == if IsUnused(w, owners) then 0 else multiset(ws)[w]
  {
    if ws == [] {
    } else {
      var front, last := ws[..|ws| - 1], ws[|ws| - 1];
      OwnedMultiplicity(front, owners, w);
      assert ws == front + [last];
      assert multiset(ws)[w] == multiset(front)[w] + multiset([last])[w];
    }
  }

  /** The owned workloads are the listed ones, with multiplicity, whose Deployment name is on the owner list,
      or all of them while that list is empty. */
  lemma OwnedExactly(ws: seq<Workload>, owners: seq<string>, w: Workload)
    ensures multiset(Owned(ws, owners))[w] ==
              if owners == [] || "Deployment" + ":" + w.namespace + "/" + w.name in owners then multiset(ws)[w] else 0
  {
    OwnedMultiplicity(ws, owners, w);
  }

  lemma Total32Of(xs: seq<int32>, ys: seq<int32>)
    requires |xs| == |ys| && forall i :: 0 <= i < |xs| ==> xs[i] == ys[i]
    ensures Total32(xs) == Wrap32(Sum(ys))
  {
    assert xs == ys;
    Total32IsSum(ys);
  }

  /** The totals of the status are the sums of the owned workloads' own figures modulo 2^32. */
  lemma StatusFigures(ws: seq<Workload>, owners: seq<string>, o: seq<Workload>, desired: seq<int32>,
                      available: seq<int32>, unavailable: seq<int32>)
    requires o == Owned(ws, owners) && |o| == |desired| == |available| == |unavailable|
    requires forall i :: 0 <= i < |o| ==> o[i].desired == desired[i] && o[i].available == available[i]
    requires forall i :: 0 <= i < |o| ==> o[i].unavailable == unavailable[i]
    ensures var s := StatusOf(ws, owners);
      && s.owners == owners && s.desired == Wrap32(Sum(desired))
      && s.available == Wrap32(Sum(available)) && s.unavailable == Wrap32(Sum(unavailable))
  {
    Total32Of(Desireds(o), desired);
    Total32Of(Availables(o), available);
    Total32Of(Unavailables(o), unavailable);
  }

  /** It is Running exactly when as many are available and updated as desired, none is unavailable and every
      generation is observed, and Installing otherwise. */
  lemma StatusSettles(ws: seq<Workload>, owners: seq<string>, o: seq<Workload>, updated: seq<int32>)
    requires o == Owned(ws, owners) && |o| == |updated|
    requires forall i :: 0 <= i < |o| ==> o[i].updated == updated[i]
    ensures var s := StatusOf(ws, owners);
      s.status == if s.desired == s.available == Wrap32(Sum(updated)) && s.unavailable == 0
                     && forall i :: 0 <= i < |o| ==> o[i].observedGeneration == o[i].generation
                  then Running else Installing
  {
    Total32Of(Updateds(o), updated);
    assert GenerationsEqual(o) <==> forall i :: 0 <= i < |o| ==> o[i].observedGeneration == o[i].generation;
  }

  /** Its pod sets are one per owned workload, with that one's name, version and figures, ordered by name;
      its version text is made of theirs. */
  lemma StatusPodSets(ws: seq<Workload>, owners: seq<string>, o: seq<Workload>, pods: seq<PodInfo>,
                      versions: seq<string>)
    requires o == Owned(ws, owners) && |o| == |pods| == |versions|
    requires forall i :: 0 <= i < |o| ==> o[i].version == versions[i]
    requires forall i :: 0 <= i < |o| ==>
               pods[i] == PodInfo(o[i].name, o[i].version, o[i].desired, o[i].available, o[i].unavailable)
    ensures var s := StatusOf(ws, owners);
      && multiset(s.podSets) == multiset(pods) && s.version == PodVersions.WorkerVersion(versions)
      && forall i, j :: 0 <= i < j < |s.podSets| ==> PodVersions.AtMost(s.podSets[i].name, s.podSets[j].name)
  {
    assert PodsOf(o) == pods;
    assert PodVersions.VersionsOf(pods) == versions;
    PodVersions.SortPodsPermutes(pods);
    PodVersions.SortPodsSorts(pods);
  }

  // ---------------------------------------------------------------- what counts as unused

  /** Kubernetes names contain neither separator. */
  predicate Plain(s: string) { forall i :: 0 <= i < |s| ==> s[i] != ':' && s[i] != '/' }

  lemma SplitsAlike(a: string, b: string, c: string, d: string, sep: char)
    requires a + [sep] + b == c + [sep] + d
    requires (forall i :: 0 <= i < |a| ==> a[i] != sep) && (forall i :: 0 <= i < |c| ==> c[i] != sep)
    ensures a == c && b == d
  {
    var s, t := a + [sep] + b, c + [sep] + d;
    assert s[|a|] == sep && t[|c|] == sep;
    assert forall i :: 0 <= i < |a| ==> s[i] == a[i];
    assert forall i :: 0 <= i < |c| ==> t[i] == c[i];
    assert |a| == |c|;
    assert a == s[..|a|] && c == t[..|c|] && b == s[|a| + 1..] && d == t[|c| + 1..];
  }

  lemma FormattedNameInjective(kind1: string, ns1: string, name1: string, kind2: string, ns2: string, name2: string)
    requires Plain(kind1) && Plain(kind2) && Plain(ns1) && Plain(ns2)
    requires FormattedName(kind1, ns1, name1) == FormattedName(kind2, ns2, name2)
    ensures kind1 == kind2 && ns1 == ns2 && name1 == name2
  {
    assert FormattedName(kind1, ns1, name1) == kind1 + [':'] + (ns1 + ['/'] + name1);
    assert FormattedName(kind2, ns2, name2) == kind2 + [':'] + (ns2 + ['/'] + name2);
    SplitsAlike(kind1, ns1 + ['/'] + name1, kind2, ns2 + ['/'] + name2, ':');
    SplitsAlike(ns1, name1, ns2, name2, '/');
  }

  predicate PlainObjects(os: seq<Rendered>) {
    forall i :: 0 <= i < |os| ==> Plain(os[i].kind) && Plain(os[i].namespace)
  }

  predicate RenderedAs(os: seq<Rendered>, i: nat, w: Workload) {
    i < |os| && os[i].kind == DEPLOYMENT && os[i].namespace == w.namespace && os[i].name == w.name
  }

  /** Against a non-empty owner list a listed workload, of whatever kind, is unused exactly when no
      Deployment was rendered with its namespace and name. */
  lemma UnusedIffNotRendered(w: Workload, os: seq<Rendered>)
    requires os != [] && PlainObjects(os) && Plain(w.namespace)
    ensures IsUnused(w, OwnerNames(os)) <==> !exists i: nat :: RenderedAs(os, i, w)
  {
    var owners, name := OwnerNames(os), FormattedName(DEPLOYMENT, w.namespace, w.name);
    if i: nat :| RenderedAs(os, i, w) { assert owners[i] == name && name in owners; }
    if name in owners {
      var i: nat :| i < |owners| && owners[i] == name;
      FormattedNameInjective(os[i].kind, os[i].namespace, os[i].name, DEPLOYMENT, w.namespace, w.name);
      assert RenderedAs(os, i, w);
    }
  }

  lemma {:induction false} NoneOwned(ws: seq<Workload>, owners: seq<string>)
    requires forall i :: 0 <= i < |ws| ==> IsUnused(ws[i], owners)
    ensures Owned(ws, owners) == []
  {
    if ws == [] {
    } else {
      NoneOwned(ws[..|ws| - 1], owners);
    }
  }

  lemma WithoutDeploymentsNoneOwned(os: seq<Rendered>, ws: seq<Workload>)
    requires os != [] && PlainObjects(os) && forall i :: 0 <= i < |os| ==> os[i].kind != DEPLOYMENT
    requires forall i :: 0 <= i < |ws| ==> Plain(ws[i].namespace)
    ensures Owned(ws, OwnerNames(os)) == []
  {
    forall i | 0 <= i < |ws| ensures IsUnused(ws[i], OwnerNames(os)) {
      UnusedIffNotRendered(ws[i], os);
    }
    NoneOwned(ws, OwnerNames(os));
  }

  /** A list of which nothing is owned has settled, with nothing desired, and loses its last workload as
      many times as it has workloads. */
  lemma NoneOwnedStatus(ws: seq<Workload>, owners: seq<string>)
    requires Owned(ws, owners) == []
    ensures StatusOf(ws, owners) == AggrStatus(owners, Running, "", 0, 0, 0, [])
  {
  }

  lemma NoneOwnedDeletes(ws: seq<Workload>, owners: seq<string>)
    requires Owned(ws, owners) == [] && ws != []
    ensures DeletesFor(ws, owners) == seq(|ws|, _ => ws[|ws| - 1])
  {
    NoneOwnedStatus(ws, owners);
  }

  /** The objects all went through without error and without change, and there are some. */
  predicate AppliedCleanly(inp: Inputs) {
    && !inp.deleting && inp.typeOk && AllRendered(inp.renderings)
    && var os := AllObjects(inp.renderings);
    && os != [] && AllClean(os) && !LingeringHpaError(os)
  }

  lemma CleanRunHasOwners(inp: Inputs)
    requires AppliedCleanly(inp)
    ensures ReachesStatus(inp) && OwnersOf(inp) == OwnerNames(AllObjects(inp.renderings))
  {
    OwnersIffClean(AllObjects(inp.renderings), 0);
  }

  /** So a chart of StatefulSets, without any Deployment, never owns what it listed: as soon as it applied
      cleanly, all of them count as unused, the status is Running with nothing desired, and the last one
      is deleted as many times as there are. */
  lemma StatefulSetsAreNeverOwned(inp: Inputs)
    requires AppliedCleanly(inp) && PlainObjects(AllObjects(inp.renderings))
    requires inp.deploys.Some? && |inp.deploys.value| <= 1 && inp.statefulsets.Some? && |inp.statefulsets.value| > 1
    requires var os := AllObjects(inp.renderings); forall i :: 0 <= i < |os| ==> os[i].kind != DEPLOYMENT
    requires forall i :: 0 <= i < |inp.statefulsets.value| ==> Plain(inp.statefulsets.value[i].namespace)
    ensures var ws, owners := inp.statefulsets.value, OwnerNames(AllObjects(inp.renderings));
      && StatusOf(ws, owners) == AggrStatus(owners, Running, "", 0, 0, 0, [])
      && DeletesOf(inp) == seq(|ws|, _ => ws[|ws| - 1])
  {
    var os, ws := AllObjects(inp.renderings), inp.statefulsets.value;
    CleanRunHasOwners(inp);
    WithoutDeploymentsNoneOwned(os, ws);
    NoneOwnedStatus(ws, OwnerNames(os));
    NoneOwnedDeletes(ws, OwnerNames(os));
  }

  // ---------------------------------------------------------------- who gets a status at all

  /** A status needs a second workload: a run settles on one exactly when the Deployments were listed and
      there are two of them, or else the StatefulSets were and there are two of those; and that list decides. */
  lemma StatusNeedsTwoWorkloads(inp: Inputs)
    ensures Chosen(inp).Some? <==>
      && inp.deploys.Some?
      && (|inp.deploys.value| > 1 || (inp.statefulsets.Some? && |inp.statefulsets.value| > 1))
    ensures Chosen(inp).Some? ==> Chosen(inp) == if |inp.deploys.value| > 1 then inp.deploys else inp.statefulsets
  {
  }

  /** And a chart with at most one of each never has one stored by a run, nor a delete issued. */
  lemma SingleWorkloadHasNoStatus(inp: Inputs, log: seq<StatusWrite.Event>, h: StatusWrite.History, horizon: nat)
    requires inp.deploys.Some? ==> |inp.deploys.value| <= 1
    requires inp.statefulsets.Some? ==> |inp.statefulsets.value| <= 1
    ensures !StatusStored(inp, log, h, horizon) && DeletesOf(inp) == []
  {
    StatusNeedsTwoWorkloads(inp);
  }
}
