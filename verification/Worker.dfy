/** The worker's reconcile pipeline: the step list driven by the context, applying the rendered
    objects, recalculating the status, and clearing workloads no longer rendered. */
module Worker {
  import opened Prelude
  import opened Api
  import opened Context
  import opened StatusWrite
  import PodVersions

  const DEPLOYMENT := "Deployment"
  const STATEFULSET := "StatefulSet"

  /** A rendered object and what applying it will answer. */
  datatype Rendered = Rendered(
    kind: string, namespace: string, name: string,
    convertFails: bool,
    changed: bool, applyFails: bool,       // resource.Reconcile
    hpaFails: bool)

  /** helm.RenderTemplate for one pod set; None when it fails. */
  type Rendering = Option<seq<Rendered>>

  /** A listed Deployment (or StatefulSet, whose unavailable count is not read and given as 0). */
  datatype Workload = Workload(
    namespace: string, name: string, version: string,
    desired: int32, available: int32, unavailable: int32, updated: int32,
    generation: int64, observedGeneration: int64)

  /** Everything one Reconcile run is told from outside; None is a failed List. */
  datatype Inputs = Inputs(
    deleting: bool,
    typeOk: bool,
    renderings: seq<Rendering>,
    deploys: Option<seq<Workload>>,
    statefulsets: Option<seq<Workload>>,
    jobsListed: bool)

  function FormattedName(kind: string, namespace: string, name: string): string {
    kind + ":" + namespace + "/" + name
  }

  predicate Supported(kind: string) { kind in {"Service", DEPLOYMENT, STATEFULSET, "Job"} }

  predicate ScalesWithHpa(kind: string) { kind == DEPLOYMENT || kind == STATEFULSET }

  // ---------------------------------------------------------------- what applying comes to

  /** Stopped: the stop flag is set. NoOwners: the step failed without setting it. Otherwise the
      owner list is in the context and the pipeline goes on. */
  datatype Applied = Stopped | NoOwners | Owners(list: seq<string>)

  predicate AllRendered(rs: seq<Rendering>) { forall i :: 0 <= i < |rs| ==> rs[i].Some? }

  function AllObjects(rs: seq<Rendering>): seq<Rendered>
    requires AllRendered(rs)
  {
    if rs == [] then [] else AllObjects(rs[..|rs| - 1]) + rs[|rs| - 1].value
  }

  /** An object goes through without error and without change. */
  predicate Clean(o: Rendered) { Supported(o.kind) && !o.convertFails && !o.applyFails && !o.changed }

  function OwnerNames(os: seq<Rendered>): seq<string> {
    seq(|os|, i requires 0 <= i < |os| => FormattedName(os[i].kind, os[i].namespace, os[i].name))
  }

  /** The last autoscaler error lingers in `err` until the next conversion overwrites it. */
  predicate LingeringHpaError(os: seq<Rendered>) {
    os != [] && ScalesWithHpa(os[|os| - 1].kind) && os[|os| - 1].hpaFails
  }

  predicate AnyChanged(os: seq<Rendered>) { exists i :: 0 <= i < |os| && os[i].changed }

  lemma AnyChangedSnoc(os: seq<Rendered>, k: nat)
    requires k < |os|
    ensures AnyChanged(os[..k + 1]) <==> AnyChanged(os[..k]) || os[k].changed
  {
    if AnyChanged(os[..k]) {
      var i :| 0 <= i < k && os[..k][i].changed;
      assert os[..k + 1][i].changed;
    }
    if os[k].changed { assert os[..k + 1][k].changed; }
  }

  predicate Passes(o: Rendered) { Supported(o.kind) && !ApplyStops(o) }

  predicate ApplyStops(o: Rendered) { Supported(o.kind) && (o.convertFails || o.applyFails) }

  /** How the loop over the objects ends, looking at the first object that ends it early. */
  function ApplyFrom(os: seq<Rendered>, k: nat): Applied
    requires k <= |os|
    decreases |os| - k
  {
    if k == |os| then
      if LingeringHpaError(os) || AnyChanged(os) then Stopped else Owners(OwnerNames(os))
    else if !Supported(os[k].kind) then (if LingeringHpaError(os[..k]) then Stopped else NoOwners)
    else if ApplyStops(os[k]) then Stopped
    else ApplyFrom(os, k + 1)
  }

  /** The step returns an error: a rendering failed, or some object has no converter, cannot be converted or
      cannot be applied. */
  ghost predicate ApplyFails(rs: seq<Rendering>) {
    AllRendered(rs) ==>
      var os := AllObjects(rs);
      exists k :: 0 <= k < |os| &&
                  (os[k].kind !in {"Service", "Deployment", "StatefulSet", "Job"}
                   || os[k].convertFails || os[k].applyFails)
  }

  function ApplyOutcome(rs: seq<Rendering>): Applied {
    if AllRendered(rs) then ApplyFrom(AllObjects(rs), 0) else NoOwners
  }

  /** The step as written. `err` declared in the rendering loop shadows the one the deferred function
      looks at, and the unsupported-kind return does not assign it: both leave the stop flag alone. */
  method StepApplyResources(ctx: WrapperCtx, rs: seq<Rendering>) returns (failed: bool)
    requires ctx.Valid() && !AsBool(ctx.Get(STEP_STOP)) && ctx.Get(OWNER_RES) == None
               && AsInt64(ctx.Get(REQUEUE_AFTER)) == 0
    modifies ctx.builtin
    ensures ctx.Valid() && ctx.builtin == old(ctx.builtin)
    ensures failed == ApplyFails(rs)
    ensures AsBool(ctx.Get(STEP_STOP)) == ApplyOutcome(rs).Stopped?
    ensures !ApplyOutcome(rs).Stopped? ==>
              ctx.Get(OWNER_RES) == if ApplyOutcome(rs).Owners? then Some(StringsValue(ApplyOutcome(rs).list)) else None
    ensures AsInt64(ctx.Get(REQUEUE_AFTER)) == 0
    ensures forall k :: 0 <= k < KEY_END && k !in {STEP_STOP, REQUEUE_AFTER, OWNER_RES} ==>
              ctx.builtin[k] == old(ctx.builtin[k])
  {
    var err: bool;
    failed, err := ApplyBody(ctx, rs);
    if err {
      var _ := WithValue(ctx, STEP_STOP, BoolValue(true));
      var _ := WithValue(ctx, REQUEUE_AFTER, DurationValue(FIVE_SECONDS));
    }
  }

  /** Rendering every pod set in turn; a failure ends the step. */
  method CollectObjects(rs: seq<Rendering>) returns (r: Option<seq<Rendered>>)
    ensures r == if AllRendered(rs) then Some(AllObjects(rs)) else None
  {
    var objects := [];
    for i := 0 to |rs|
      invariant AllRendered(rs[..i]) && objects == AllObjects(rs[..i])
    {
      assert rs[..i + 1][..i] == rs[..i];
      if rs[i].None? { return None; }
      objects := objects + rs[i].value;
    }
    assert rs[..|rs|] == rs;
    r := Some(objects);
  }

  /** The loop over the rendered objects; `early` when it returns from the step. */
  method ApplyObjects(ctx: WrapperCtx, objects: seq<Rendered>)
    returns (early: bool, err: bool, ownerRes: seq<string>, change: nat)
    requires ctx.Valid() && !AsBool(ctx.Get(STEP_STOP))
    modifies ctx.builtin
    ensures ctx.Valid() && ctx.builtin == old(ctx.builtin)
    ensures forall k :: 0 <= k < KEY_END && k != STEP_STOP ==> ctx.builtin[k] == old(ctx.builtin[k])
    ensures early <==> exists k :: 0 <= k < |objects| && !Passes(objects[k])
    ensures early ==> ApplyFrom(objects, 0) == if AsBool(ctx.Get(STEP_STOP)) || err then Stopped else NoOwners
    ensures !early ==> !AsBool(ctx.Get(STEP_STOP))
    ensures !early ==> ApplyFrom(objects, 0) == if err || change > 0 then Stopped else Owners(ownerRes)
  {
    early, err, ownerRes, change := true, false, [], 0;
    for k := 0 to |objects|
      invariant ctx.Valid() && ctx.builtin[..] == old(ctx.builtin[..])
      invariant early && ApplyFrom(objects, 0) == ApplyFrom(objects, k)
      invariant forall j :: 0 <= j < k ==> Passes(objects[j])
      invariant ownerRes == OwnerNames(objects[..k])
      invariant err == LingeringHpaError(objects[..k])
      invariant change > 0 <==> AnyChanged(objects[..k])
    {
      var o := objects[k];
      AnyChangedSnoc(objects, k);
      assert objects[..k + 1] == objects[..k] + [o];
      if !Supported(o.kind) { return; }
      err := o.convertFails;
      if err { return; }
      ownerRes := ownerRes + [FormattedName(o.kind, o.namespace, o.name)];
      err := o.applyFails;
      if err {
        var _ := WithValue(ctx, STEP_STOP, BoolValue(true));
        return;
      }
      if ScalesWithHpa(o.kind) { err := o.hpaFails; }
      if o.changed { change := change + 1; }
    }
    assert objects[..|objects|] == objects;
    early := false;
  }

  /** The body before the deferred function; err is what that function will see. */
  method ApplyBody(ctx: WrapperCtx, rs: seq<Rendering>) returns (failed: bool, err: bool)
    requires ctx.Valid() && !AsBool(ctx.Get(STEP_STOP)) && ctx.Get(OWNER_RES) == None
               && AsInt64(ctx.Get(REQUEUE_AFTER)) == 0
    modifies ctx.builtin
    ensures ctx.Valid() && ctx.builtin == old(ctx.builtin)
    ensures failed == ApplyFails(rs)
    ensures (AsBool(ctx.Get(STEP_STOP)) || err) == ApplyOutcome(rs).Stopped?
    ensures !ApplyOutcome(rs).Stopped? ==>
              ctx.Get(OWNER_RES) == if ApplyOutcome(rs).Owners? then Some(StringsValue(ApplyOutcome(rs).list)) else None
    ensures AsInt64(ctx.Get(REQUEUE_AFTER)) == 0
    ensures forall k :: 0 <= k < KEY_END && k !in {STEP_STOP, REQUEUE_AFTER, OWNER_RES} ==>
              ctx.builtin[k] == old(ctx.builtin[k])
  {
    err := false;
    var rendered := CollectObjects(rs);
    if rendered.None? { return true, err; }
    var early, ownerRes, change;
    early, err, ownerRes, change := ApplyObjects(ctx, rendered.value);
    if early { return true, err; }
    if change > 0 {
      var _ := WithValue(ctx, STEP_STOP, BoolValue(true));
      var _ := WithValue(ctx, REQUEUE_AFTER, DurationValue(FIVE_SECONDS));
    }
    var _ := WithValue(ctx, OWNER_RES, StringsValue(ownerRes));
    failed := false;
  }

  // ---------------------------------------------------------------- recalculating the status

  /** isUnunseObject: nothing is unused while the owner list is empty. The kind compared with is
      Deployment, for StatefulSets too. */
  predicate IsUnused(w: Workload, owners: seq<string>) {
    owners != [] && FormattedName(DEPLOYMENT, w.namespace, w.name) !in owners
  }

  method IsUnusedObject(w: Workload, owners: seq<string>) returns (r: bool)
    ensures r == IsUnused(w, owners)
    ensures r <==> owners != [] && "Deployment" + ":" + w.namespace + "/" + w.name !in owners
  {
    if |owners| == 0 { return false; }
    var name := FormattedName(DEPLOYMENT, w.namespace, w.name);
    for i := 0 to |owners|
      invariant name !in owners[..i]
    {
      if name == owners[i] { return false; }
    }
    r := true;
  }

  /** The workloads that count for the status. */
  function Owned(ws: seq<Workload>, owners: seq<string>): seq<Workload> {
    if ws == [] then []
    else
      var w := ws[|ws| - 1];
      Owned(ws[..|ws| - 1], owners) + if IsUnused(w, owners) then [] else [w]
  }

  function Desireds(ws: seq<Workload>): seq<int32> { seq(|ws|, i requires 0 <= i < |ws| => ws[i].desired) }

  function Availables(ws: seq<Workload>): seq<int32> { seq(|ws|, i requires 0 <= i < |ws| => ws[i].available) }

  function Unavailables(ws: seq<Workload>): seq<int32> { seq(|ws|, i requires 0 <= i < |ws| => ws[i].unavailable) }

  function Updateds(ws: seq<Workload>): seq<int32> { seq(|ws|, i requires 0 <= i < |ws| => ws[i].updated) }

  /** What a workload contributes to the list of pod sets. */
  function PodOf(w: Workload): PodInfo { PodInfo(w.name, w.version, w.desired, w.available, w.unavailable) }

  function PodsOf(ws: seq<Workload>): seq<PodInfo> { seq(|ws|, i requires 0 <= i < |ws| => PodOf(ws[i])) }

  predicate GenerationsEqual(ws: seq<Workload>) { forall w :: w in ws ==> w.observedGeneration == w.generation }

  /** The running totals of the loop over the workloads. */
  datatype Tally = Tally(
    desired: int32, available: int32, unavailable: int32, updated: int32, generationEqual: bool, pods: seq<PodInfo>)

  function TallyOf(owned: seq<Workload>): Tally {
    Tally(Total32(Desireds(owned)), Total32(Availables(owned)), Total32(Unavailables(owned)), Total32(Updateds(owned)),
          GenerationsEqual(owned), PodsOf(owned))
  }

  function Count(t: Tally, w: Workload): Tally {
    Tally(Add32(t.desired, w.desired), Add32(t.available, w.available), Add32(t.unavailable, w.unavailable),
          Add32(t.updated, w.updated), t.generationEqual && w.observedGeneration == w.generation, t.pods + [PodOf(w)])
  }

  function TallyFrom(s: AggrStatus, updated: int32, generationEqual: bool): Tally {
    Tally(s.desired, s.available, s.unavailable, updated, generationEqual, s.podSets)
  }

  lemma TallySnoc(f: seq<Workload>, w: Workload)
    ensures TallyOf(f + [w]) == Count(TallyOf(f), w)
  {
    var g := f + [w];
    assert Desireds(g)[..|f|] == Desireds(f);
    assert Availables(g)[..|f|] == Availables(f);
    assert Unavailables(g)[..|f|] == Unavailables(f);
    assert Updateds(g)[..|f|] == Updateds(f);
    assert forall v :: v in g <==> v in f || v == w;
  }

  lemma OwnedSnoc(ws: seq<Workload>, i: nat, owners: seq<string>)
    requires i < |ws|
    ensures var f, g := Owned(ws[..i], owners), Owned(ws[..i + 1], owners);
      if IsUnused(ws[i], owners) then g == f
      else |g| == |f| + 1 && TallyOf(g) == Count(TallyOf(f), ws[i])
  {
    assert ws[..i + 1][..i] == ws[..i];
    if !IsUnused(ws[i], owners) { TallySnoc(Owned(ws[..i], owners), ws[i]); }
  }

  /** The loop variable of `for _, deploy := range deploys`: before Go 1.22 all iterations share it. */
  class LoopVariable {
    var current: Workload

    constructor (w: Workload)
      ensures current == w
    {
      current := w;
    }
  }

  /** The body of the loop for a workload in use. */
  method CountWorkload(t: Tally, w: Workload) returns (r: Tally)
    ensures r == Count(t, w)
  {
    var podSet := PodInfo(w.name, w.version, w.desired, w.available, w.unavailable);
    r := t.(pods := t.pods + [podSet]);
    r := r.(available := Add32(r.available, podSet.available));
    r := r.(desired := Add32(r.desired, podSet.desired));
    r := r.(unavailable := Add32(r.unavailable, podSet.unavailable));
    r := r.(updated := Add32(r.updated, w.updated));
    if w.observedGeneration != w.generation { r := r.(generationEqual := false); }
  }

  /** loopDeploys and loopStatefulSet. The totals are those of the owned workloads; every entry of
      `unused` is the address of the one loop variable, which ends up holding the last workload. */
  method LoopWorkloads(ws: seq<Workload>, owners: seq<string>)
    returns (unused: seq<LoopVariable>, status: AggrStatus, updated: int32, generationEqual: bool)
    requires ws != []
    ensures fresh(set v | v in unused)
    ensures |unused| == |ws| - |Owned(ws, owners)|
    ensures forall v :: v in unused ==> v.current == ws[|ws| - 1]
    ensures var o := Owned(ws, owners);
      TallyFrom(status, updated, generationEqual) == TallyOf(o)
    ensures status.owners == []
  {
    unused := [];
    var t := Tally(0, 0, 0, 0, true, []);
    var loopVar := new LoopVariable(ws[0]);
    ghost var owned: seq<Workload> := [];
    for i := 0 to |ws|
      invariant fresh(loopVar) && forall v :: v in unused ==> v == loopVar
      invariant owned == Owned(ws[..i], owners) && |unused| == i - |owned|
      invariant i > 0 ==> loopVar.current == ws[i - 1]
      invariant t == TallyOf(owned)
    {
      loopVar.current := ws[i];
      OwnedSnoc(ws, i, owners);
      var isUnused := IsUnusedObject(loopVar.current, owners);
      owned := Owned(ws[..i + 1], owners);
      if isUnused {
        unused := unused + [loopVar];
        continue;
      }
      t := CountWorkload(t, ws[i]);
    }
    assert ws[..|ws|] == ws;
    status := AggrStatus([], OtherStatus(""), "", t.desired, t.available, t.unavailable, t.pods);
    updated, generationEqual := t.updated, t.generationEqual;
  }

  /** The figures of a status, and what dealAggreStatus makes of them. */
  datatype Summary = Summary(status: AppStatus, desired: int32, available: int32, unavailable: int32)

  function Summarise(t: Tally): Summary {
    var settled := t.desired == t.available && t.unavailable == 0 && t.generationEqual && t.desired == t.updated;
    Summary(if settled then Running else Installing, t.desired, t.available, t.unavailable)
  }

  /** The status dealAggreStatus settles on for a list of workloads. */
  function StatusOf(ws: seq<Workload>, owners: seq<string>): AggrStatus {
    var t := TallyOf(Owned(ws, owners));
    AggrStatus(owners, Summarise(t).status, PodVersions.WorkerVersion(PodVersions.VersionsOf(t.pods)),
               t.desired, t.available, t.unavailable, PodVersions.SortPods(t.pods))
  }

  /** What is deleted for a list of workloads: nothing while more is desired than available; otherwise
      the last workload of the list, once for every unused one. */
  function DeletesFor(ws: seq<Workload>, owners: seq<string>): seq<Workload>
    requires ws != []
  {
    var s := StatusOf(ws, owners);
    if s.desired > s.available then [] else seq(UnusedCount(ws, owners), _ => ws[|ws| - 1])
  }

  function UnusedCount(ws: seq<Workload>, owners: seq<string>): nat {
    OwnedIsShorter(ws, owners);
    |ws| - |Owned(ws, owners)|
  }

  lemma {:induction false} OwnedIsShorter(ws: seq<Workload>, owners: seq<string>)
    ensures |Owned(ws, owners)| <= |ws|
    ensures |Owned(ws, owners)| < |ws| <==> exists i :: 0 <= i < |ws| && IsUnused(ws[i], owners)
  {
    if ws == [] {
    } else {
      OwnedIsShorter(ws[..|ws| - 1], owners);
    }
  }

  predicate HasOwners(v: Option<Value>) { v.Some? && v.value.StringsValue? }

  method DealAggrStatus(ctx: WrapperCtx, status: AggrStatus, generationEqual: bool, updated: int32,
                        unused: seq<LoopVariable>)
    returns (issued: seq<Workload>)
    requires ctx.Valid()
    modifies ctx.builtin
    ensures ctx.Valid() && ctx.builtin == old(ctx.builtin)
    ensures var owners := AsStrings(old(ctx.Get(OWNER_RES)));
      ctx.Get(AGGR_STATUS) == Some(AggrStatusValue(status.(
        podSets := PodVersions.SortPods(status.podSets),
        version := PodVersions.WorkerVersion(PodVersions.VersionsOf(status.podSets)),
        owners := if HasOwners(old(ctx.Get(OWNER_RES))) then owners else status.owners,
        status := if status.desired == status.available == updated && status.unavailable == 0 && generationEqual
                  then Running else Installing)))
    ensures ctx.Get(GENERATION_EQUAL) == Some(BoolValue(generationEqual))
    ensures forall k :: 0 <= k < KEY_END && k !in {AGGR_STATUS, GENERATION_EQUAL} ==>
              ctx.builtin[k] == old(ctx.builtin[k])
    ensures |issued| == if status.desired > status.available then 0 else |unused|
    ensures forall i :: 0 <= i < |issued| ==> issued[i] == unused[i].current
  {
    var sorted := PodVersions.SortPods(status.podSets);
    var version := PodVersions.RemoveDuplicatedVersion(PodVersions.VersionsOf(sorted));
    PodVersions.WorkerVersionOfSorted(status.podSets);
    var final := status.(podSets := sorted, version := version);
    var owners := ctx.Get(OWNER_RES);
    if owners.Some? && owners.value.StringsValue? { final := final.(owners := owners.value.ss); }
    // In the program the context holds the pointer, so the status assigned next is seen through it.
    if status.desired == status.available && status.unavailable == 0 && generationEqual && status.desired == updated {
      final := final.(status := Running);
    } else {
      final := final.(status := Installing);
    }
    var _ := WithValue(ctx, AGGR_STATUS, AggrStatusValue(final));
    var _ := WithValue(ctx, GENERATION_EQUAL, BoolValue(generationEqual));
    issued := [];
    if status.desired > status.available { return; }
    for i := 0 to |unused|
      invariant |issued| == i && forall j :: 0 <= j < i ==> issued[j] == unused[j].current
    {
      issued := issued + [unused[i].current];
    }
  }

  /** Which list the status comes from: Deployments when there is more than one, else StatefulSets when
      there is more than one. A single workload gives no status; the Job branch tests the StatefulSet
      count again and is never taken. */
  function Chosen(inp: Inputs): Option<seq<Workload>> {
    if inp.deploys.None? then None
    else if |inp.deploys.value| > 1 then inp.deploys
    else if inp.statefulsets.None? then None
    else if |inp.statefulsets.value| > 1 then inp.statefulsets
    else None
  }

  lemma ChosenIsPlural(inp: Inputs)
    requires Chosen(inp).Some?
    ensures |Chosen(inp).value| > 1
  {
  }

  method StepRecalculateStatus(ctx: WrapperCtx, inp: Inputs) returns (issued: seq<Workload>, failed: bool)
    requires ctx.Valid()
    modifies ctx.builtin
    ensures ctx.Valid() && ctx.builtin == old(ctx.builtin)
    ensures Chosen(inp).None? ==> issued == [] && ctx.builtin[..] == old(ctx.builtin[..])
    ensures Chosen(inp).Some? ==>
              var ws, owners := Chosen(inp).value, AsStrings(old(ctx.Get(OWNER_RES)));
              && ws != [] && issued == DeletesFor(ws, owners)
              && ctx.Get(AGGR_STATUS) == Some(AggrStatusValue(StatusOf(ws, owners)))
              && ctx.Get(GENERATION_EQUAL) == Some(BoolValue(GenerationsEqual(Owned(ws, owners))))
    ensures forall k :: 0 <= k < KEY_END && k !in {AGGR_STATUS, GENERATION_EQUAL} ==>
              ctx.builtin[k] == old(ctx.builtin[k])
  {
    issued := [];
    var o := ctx.Get(OWNER_RES);
    var owners := if o.Some? && o.value.StringsValue? then o.value.ss else [];
    if inp.deploys.None? { return [], true; }
    if |inp.deploys.value| > 1 {
      issued := RecalculateFrom(ctx, inp.deploys.value, owners);
      return issued, false;
    }
    if inp.statefulsets.None? { return [], true; }
    if |inp.statefulsets.value| > 1 {
      issued := RecalculateFrom(ctx, inp.statefulsets.value, owners);
      return issued, false;
    }
    failed := !inp.jobsListed;
  }

  method RecalculateFrom(ctx: WrapperCtx, ws: seq<Workload>, owners: seq<string>) returns (issued: seq<Workload>)
    requires ctx.Valid() && ws != [] && owners == AsStrings(ctx.Get(OWNER_RES))
    modifies ctx.builtin
    ensures ctx.Valid() && ctx.builtin == old(ctx.builtin)
    ensures issued == DeletesFor(ws, owners)
    ensures ctx.Get(AGGR_STATUS) == Some(AggrStatusValue(StatusOf(ws, owners)))
    ensures ctx.Get(GENERATION_EQUAL) == Some(BoolValue(GenerationsEqual(Owned(ws, owners))))
    ensures forall k :: 0 <= k < KEY_END && k !in {AGGR_STATUS, GENERATION_EQUAL} ==>
              ctx.builtin[k] == old(ctx.builtin[k])
  {
    var unused, status, updated, generationEqual := LoopWorkloads(ws, owners);
    issued := DealAggrStatus(ctx, status, generationEqual, updated, unused);
  }

  // ---------------------------------------------------------------- the whole run

  /** The run gets as far as recalculating the status. */
  predicate ReachesStatus(inp: Inputs) {
    !inp.deleting && inp.typeOk && !ApplyOutcome(inp.renderings).Stopped?
  }

  /** The owner list the run then has. */
  function OwnersOf(inp: Inputs): seq<string> {
    var applied := ApplyOutcome(inp.renderings);
    if applied.Owners? then applied.list else []
  }

  /** The deletes of one run, from its inputs alone. */
  function DeletesOf(inp: Inputs): seq<Workload> {
    if !ReachesStatus(inp) || Chosen(inp).None? then []
    else
      ChosenIsPlural(inp);
      DeletesFor(Chosen(inp).value, OwnersOf(inp))
  }

  /** The run's status step wrote, or found stored, the status the run settled on. */
  predicate StatusStored(inp: Inputs, log: seq<Event>, h: History, horizon: nat) {
    && Chosen(inp).Some?
    && StoredBy(log, h, horizon, StatusOf(Chosen(inp).value, OwnersOf(inp)),
        GenerationsEqual(Owned(Chosen(inp).value, OwnersOf(inp))))
  }

  /** What an undisturbed run leaves of the history. */
  ghost predicate RunStoresQuietly(inp: Inputs, before: History, after: History) {
    && Chosen(inp).Some?
    && StoredQuietly(before, after, StatusOf(Chosen(inp).value, OwnersOf(inp)),
        GenerationsEqual(Owned(Chosen(inp).value, OwnersOf(inp))))
  }

  ghost predicate StatusInContext(inp: Inputs, ctx: WrapperCtx)
    requires ctx.Valid()
    reads ctx, ctx.builtin
  {
    if Chosen(inp).None? then ctx.Get(AGGR_STATUS) == None
    else
      && ctx.Get(AGGR_STATUS) == Some(AggrStatusValue(StatusOf(Chosen(inp).value, OwnersOf(inp))))
      && ctx.Get(GENERATION_EQUAL) == Some(BoolValue(GenerationsEqual(Owned(Chosen(inp).value, OwnersOf(inp)))))
  }

  /** How the status step ends, seen from the run. */
  ghost predicate StoreEnds(inp: Inputs, before: History, log: seq<Event>, after: History, slots: nat -> Slot,
                            horizon: nat, failed: bool)
    requires before != []
  {
    && before <= after && WritesOnLastRead(log, after) && AtMostOneWrite(log)
    && (if Chosen(inp).None? then failed && log == [] && after == before
        else if failed then Hindered(log, after, slots, horizon)
        else StatusStored(inp, log, after, horizon))
    && (Chosen(inp).Some? && Quiet(slots) && before[|before| - 1].Some? ==>
        !failed && RunStoresQuietly(inp, before, after))
  }

  /** The last step, given what the one before left in the context. */
  method StoreStatus(inp: Inputs, ctx: WrapperCtx, server: ApiServer, slots: nat -> Slot, horizon: nat)
    returns (failed: bool)
    requires ctx.Valid() && server.Valid() && server.log == [] && horizon < |server.history|
    requires StatusInContext(inp, ctx) && !AsBool(ctx.Get(STEP_STOP))
    modifies ctx.builtin, server
    ensures ctx.Valid() && ctx.builtin == old(ctx.builtin) && server.Valid()
    ensures AsBool(ctx.Get(STEP_STOP)) == (failed && Chosen(inp).Some?)
    ensures ctx.Get(NEED_REQUEUE) == old(ctx.Get(NEED_REQUEUE))
    ensures AsInt64(old(ctx.Get(REQUEUE_AFTER))) == 0 ==> AsInt64(ctx.Get(REQUEUE_AFTER)) == 0
    ensures StoreEnds(inp, old(server.history), server.log, server.history, slots, horizon, failed)
  {
    failed := StepUpdateStatus(ctx, server, slots, horizon);
  }

  /** The loop over the step list: a step's error is only logged unless the stop flag is set, and the
      requeue delay is stored as a Duration but read as an int64. */
  method RunSteps(inp: Inputs, server: ApiServer, slots: nat -> Slot, horizon: nat)
    returns (issued: seq<Workload>, needRequeue: bool, requeueAfter: int64, failed: bool)
    requires server.Valid() && server.log == [] && horizon < |server.history|
    modifies server
    ensures issued == DeletesOf(inp) && !needRequeue && requeueAfter == 0
    ensures server.Valid() && old(server.history) <= server.history
    ensures WritesOnLastRead(server.log, server.history) && AtMostOneWrite(server.log)
    ensures !ReachesStatus(inp) ==> (failed <==> !inp.deleting && (!inp.typeOk || ApplyFails(inp.renderings)))
    ensures ReachesStatus(inp) && !failed ==> StatusStored(inp, server.log, server.history, horizon)
    ensures ReachesStatus(inp) && failed ==> Chosen(inp).None? || Hindered(server.log, server.history, slots, horizon)
    ensures ReachesStatus(inp) && Chosen(inp).None? ==> failed
    ensures ReachesStatus(inp) && Chosen(inp).Some? && Quiet(slots) && old(server.Current()).Some? ==>
              !failed && RunStoresQuietly(inp, old(server.history), server.history)
    ensures !ReachesStatus(inp) || Chosen(inp).None? ==> server.log == [] && server.history == old(server.history)
  {
    var ctx := WithValue(null, STEP_STOP, BoolValue(false));
    issued := [];
    failed := false;
    var i := 0;
    while i < 5
      invariant 0 <= i <= 5 && fresh(ctx) && fresh(ctx.builtin) && ctx.Valid()
      invariant !AsBool(ctx.Get(STEP_STOP)) && AsInt64(ctx.Get(REQUEUE_AFTER)) == 0 && ctx.Get(NEED_REQUEUE) == None
      invariant i <= 2 ==> ctx.Get(OWNER_RES) == None
      invariant i <= 3 ==> ctx.Get(AGGR_STATUS) == None
      invariant i <= 2 ==> !failed
      invariant i >= 1 ==> !inp.deleting
      invariant i >= 2 ==> inp.typeOk
      invariant i >= 3 ==> ReachesStatus(inp)
      invariant i == 3 ==> AsStrings(ctx.Get(OWNER_RES)) == OwnersOf(inp)
      invariant issued == if i < 4 then [] else DeletesOf(inp)
      invariant i == 4 ==> StatusInContext(inp, ctx)
      invariant i < 5 ==> server.Valid() && server.log == [] && server.history == old(server.history)
      invariant i == 5 ==> server.Valid()
      invariant i == 5 ==> StoreEnds(inp, old(server.history), server.log, server.history, slots, horizon, failed)
    {
      match i {
        case 0 =>
          if inp.deleting { var _ := WithValue(ctx, STEP_STOP, BoolValue(true)); }
        case 1 =>
          failed := !inp.typeOk;
          if failed {
            var _ := WithValue(ctx, STEP_STOP, BoolValue(true));
            var _ := WithValue(ctx, REQUEUE_AFTER, DurationValue(FIVE_SECONDS));
          }
        case 2 => failed := StepApplyResources(ctx, inp.renderings);
        case 3 => issued, failed := StepRecalculateStatus(ctx, inp);
        case _ => failed := StoreStatus(inp, ctx, server, slots, horizon);
      }
      if AsBool(ctx.Get(STEP_STOP)) { break; }
      i := i + 1;
    }
    needRequeue := AsBool(ctx.Get(NEED_REQUEUE));
    requeueAfter := AsInt64(ctx.Get(REQUEUE_AFTER));
  }

  /** A whole run; `read` is the AdvDeployment it works on, and inp is what that one's spec and the cluster
      make of it. An undisturbed first read finds the stored object; nothing is done when it cannot be read,
      which is no error exactly when it was not found, and that takes a state since the horizon in which it
      was gone. A run that reaches the status ends without error only if a list of workloads was chosen and
      its status written or found stored, and with one only if none was chosen or the write was hindered;
      undisturbed, it stores exactly the computed status. One that does not reach it leaves the object alone. */
  method Reconcile(inp: Inputs, server: ApiServer, first: Slot, slots: nat -> Slot, horizon: nat)
    returns (issued: seq<Workload>, needRequeue: bool, requeueAfter: int64, failed: bool, read: Option<Stored>)
    requires server.Valid() && server.log == [] && horizon < |server.history|
    modifies server
    ensures !needRequeue && requeueAfter == 0
    ensures issued == if read.Some? then DeletesOf(inp) else []
    ensures server.Valid() && old(server.history) <= server.history
    ensures WritesOnLastRead(server.log, server.history) && AtMostOneWrite(server.log)
    ensures first == Slot([], NoFault, 0) && old(server.Current()).Some? ==> read == old(server.Current())
    ensures read.None? ==> (failed <==> first.fault != NoFault)
    ensures read.None? && !failed ==> exists k :: horizon <= k < |server.history| && server.history[k].None?
    ensures read.Some? ==>
              horizon <= read.value.version < |server.history| && server.history[read.value.version] == read
    ensures read.Some? && !ReachesStatus(inp) ==>
              (failed <==> !inp.deleting && (!inp.typeOk || ApplyFails(inp.renderings)))
    ensures read.Some? && ReachesStatus(inp) && !failed ==> StatusStored(inp, server.log, server.history, horizon)
    ensures read.Some? && ReachesStatus(inp) && failed ==>
              Chosen(inp).None? || Hindered(server.log, server.history, slots, horizon)
    ensures read.Some? && ReachesStatus(inp) && Chosen(inp).None? ==> failed
    ensures first == Slot([], NoFault, 0) && Quiet(slots) && old(server.Current()).Some? && ReachesStatus(inp)
              && Chosen(inp).Some? ==>
              !failed && RunStoresQuietly(inp, old(server.history), server.history)
    ensures read.None? || !ReachesStatus(inp) || Chosen(inp).None? ==>
              server.log == [] && |server.history| == |old(server.history)| + |first.writes|
  {
    var adv, reply := server.Fetch(first, horizon);
    if reply == NotFound { return [], false, 0, false, None; }
    if reply != Ok { return [], false, 0, true, None; }
    issued, needRequeue, requeueAfter, failed := RunSteps(inp, server, slots, horizon);
    read := Some(adv);
  }

  /** When a run without error leaves, as observed, a generation later than the one whose spec it applied:
      exactly when the object's generation had moved on between the run's read and its status step. */
  lemma ObservedAheadOfAppliedIff(inp: Inputs, log: seq<Event>, h: History, horizon: nat, read: Stored)
    requires StatusStored(inp, log, h, horizon) && h[LastAt(log)].value.content.generation > 0
    ensures var stored := h[LastAt(log)].value.content;
      stored.observedGeneration > read.content.generation <==>
        stored.generation > read.content.generation
          + if log[|log| - 1].Wrote? && !GenerationsEqual(Owned(Chosen(inp).value, OwnersOf(inp))) then 1 else 0
  {
    AheadOfAppliedIff(log, h, horizon, StatusOf(Chosen(inp).value, OwnersOf(inp)),
                      GenerationsEqual(Owned(Chosen(inp).value, OwnersOf(inp))), read.content.generation);
  }
}
