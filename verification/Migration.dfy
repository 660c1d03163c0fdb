/** Runs of the migration: apply steps create AdvDeployments in the clusters of a fixed spec, the
    unused-cluster step reads the clients one by one and then deletes one by one, and between any two
    of these the environment moves. */
module Migration {
  import opened Prelude
  import opened Api
  import opened ZoneList

  /** The fixed AppSet topology, and the clusters known to the multi-cluster client. */
  datatype Config = Config(spec: seq<Target>, clients: seq<string>)

  type World = map<string, Adv>

  /** Sync is the zone-aware list, Full the plain one. Which of them a pass takes depends on a status text
      and an annotation; here either is possible at any time. */
  datatype Path = Sync | Full

  /** A view, the moment it was read, and whether the client answered at all. */
  datatype Read = Read(view: View, at: nat, answered: bool)

  datatype Pc =
    | Idle
    | Reading(path: Path, since: nat, seen: seq<Read>)
    | Deleting(path: Path, since: nat, seen: seq<Read>, todo: seq<string>)

  /** A delete that the API server carried out: where, and what the pass had read. */
  datatype Deletion = Deletion(cluster: string, path: Path, since: nat, seen: seq<Read>)

  datatype State = State(clock: nat, world: World, pc: Pc, log: seq<Deletion>)

  datatype Action =
    | ApplySpec(target: nat)              // the create of applyAdvdeployment
    | Begin(path: Path)
    | ReadNext(answered: bool)            // false: not connected, or Get failed
    | ReadAll
    | DeleteNext(done: bool)              // false: not connected, or Delete failed
    | EndPass
    | Environment(world: World)

  function Views(seen: seq<Read>): seq<View> {
    seq(|seen|, i requires 0 <= i < |seen| => seen[i].view)
  }

  function ListFor(c: Config, path: Path, seen: seq<Read>): seq<string> {
    if path.Sync? then UnexpectedSync(c.spec, Views(seen)) else Unexpected(c.spec, Views(seen))
  }

  function Init(): State { State(0, map[], Idle, []) }

  /** An environment step that neither creates an AdvDeployment in, nor relabels one of, a cluster of the
      spec. Statuses and generations change freely, AdvDeployments vanish freely, and in other clusters
      everything is allowed. */
  predicate KeepsLabels(c: Config, before: World, after: World) {
    forall x :: x in after && x in Names(c.spec) ==> x in before && after[x].labels == before[x].labels
  }

  predicate Enabled(c: Config, s: State, a: Action) {
    match a
    case ApplySpec(t) => s.pc.Idle? && t < |c.spec| && c.spec[t].name !in s.world
    case Begin(_) => s.pc.Idle?
    case ReadNext(_) => s.pc.Reading? && |s.pc.seen| < |c.clients|
    case ReadAll => s.pc.Reading? && |s.pc.seen| == |c.clients|
    case DeleteNext(done) => s.pc.Deleting? && s.pc.todo != [] && (done ==> s.pc.todo[0] in s.world)
    case EndPass => s.pc.Deleting? && s.pc.todo == []
    case Environment(_) => true
  }

  function Act(c: Config, s: State, a: Action): State
    requires Enabled(c, s, a)
  {
    var t := s.(clock := s.clock + 1);
    match a
    case ApplySpec(i) =>
      t.(world := s.world[c.spec[i].name := Adv(MakeLabels(c.spec[i]), 1, 0, Installing)])
    case Begin(path) => t.(pc := Reading(path, s.clock, []))
    case ReadNext(answered) =>
      var x := c.clients[|s.pc.seen|];
      var answer := if answered && x in s.world then Some(s.world[x]) else None;
      t.(pc := Reading(s.pc.path, s.pc.since, s.pc.seen + [Read(View(x, answer), s.clock, answered)]))
    case ReadAll =>
      t.(pc := Deleting(s.pc.path, s.pc.since, s.pc.seen, ListFor(c, s.pc.path, s.pc.seen)))
    case DeleteNext(done) =>
      var x := s.pc.todo[0];
      var u := t.(pc := Deleting(s.pc.path, s.pc.since, s.pc.seen, s.pc.todo[1..]));
      if done then u.(world := s.world - {x}, log := s.log + [Deletion(x, s.pc.path, s.pc.since, s.pc.seen)]) else u
    case EndPass => t.(pc := Idle)
    case Environment(after) => t.(world := after)
  }

  ghost predicate Next(c: Config, s: State, s': State) {
    exists a :: Enabled(c, s, a) && Act(c, s, a) == s'
  }

  ghost predicate IsRun(c: Config, run: seq<State>) {
    && |run| > 0 && run[0] == Init()
    && forall i :: 0 < i < |run| ==> Next(c, run[i - 1], run[i])
  }

  // ---------------------------------------------------------------- the invariant over runs

  /** Everything read was in the world at the moment it says, between the start of the pass and now, and a
      client that answered showed what was there. */
  ghost predicate ReadsHappened(run: seq<State>, now: nat, since: nat, seen: seq<Read>) {
    && since <= now < |run|
    && forall k :: 0 <= k < |seen| ==>
      var r := seen[k];
      since <= r.at <= now
          && (r.view.adv.Some? ==>
              r.view.cluster in run[r.at].world && run[r.at].world[r.view.cluster] == r.view.adv.value)
          && (r.answered && r.view.cluster in run[r.at].world ==> r.view.adv.Some?)
  }

  /** The first clients, in their order. */
  predicate Asked(c: Config, seen: seq<Read>) {
    |seen| <= |c.clients| && forall k :: 0 <= k < |seen| ==> seen[k].view.cluster == c.clients[k]
  }

  /** A deletion is on the list its pass computed after asking every client. */
  ghost predicate Justified(c: Config, d: Deletion) {
    d.cluster in ListFor(c, d.path, d.seen) && Asked(c, d.seen) && |d.seen| == |c.clients|
  }

  /** The AdvDeployments of the spec's clusters carry the labels of some entry of that name. */
  ghost predicate Labelled(c: Config, w: World) {
    forall x :: x in w && x in Names(c.spec) ==> exists t :: t in c.spec && t.name == x && w[x].labels == MakeLabels(t)
  }

  ghost predicate Inv(c: Config, run: seq<State>, i: nat)
    requires i < |run|
  {
    var s := run[i];
    && s.clock == i
    && (s.pc.Reading? ==> ReadsHappened(run, i, s.pc.since, s.pc.seen) && Asked(c, s.pc.seen))
    && (s.pc.Deleting? ==>
          && ReadsHappened(run, i, s.pc.since, s.pc.seen)
          && Asked(c, s.pc.seen) && |s.pc.seen| == |c.clients|
          && forall x :: x in s.pc.todo ==> x in ListFor(c, s.pc.path, s.pc.seen))
    && forall d :: d in s.log ==> Justified(c, d) && ReadsHappened(run, i, d.since, d.seen)
  }

  lemma ReadsKept(run: seq<State>, i: nat, since: nat, seen: seq<Read>)
    requires 0 < i < |run| && ReadsHappened(run, i - 1, since, seen)
    ensures ReadsHappened(run, i, since, seen)
  {
  }

  lemma StepKeepsLog(c: Config, run: seq<State>, i: nat, a: Action)
    requires 0 < i < |run| && Inv(c, run, i - 1)
    requires Enabled(c, run[i - 1], a) && run[i] == Act(c, run[i - 1], a)
    ensures forall d :: d in run[i].log ==> Justified(c, d) && ReadsHappened(run, i, d.since, d.seen)
  {
    var s := run[i - 1];
    forall d | d in run[i].log ensures Justified(c, d) && ReadsHappened(run, i, d.since, d.seen) {
      if d in s.log {
        ReadsKept(run, i, d.since, d.seen);
      } else {
        assert a.DeleteNext? && s.pc.todo[0] in s.pc.todo;
        ReadsKept(run, i, s.pc.since, s.pc.seen);
      }
    }
  }

  lemma ReadNextHappened(c: Config, run: seq<State>, i: nat, a: Action)
    requires 0 < i < |run| && Inv(c, run, i - 1)
    requires a.ReadNext? && Enabled(c, run[i - 1], a) && run[i] == Act(c, run[i - 1], a)
    ensures run[i].pc.Reading? && ReadsHappened(run, i, run[i].pc.since, run[i].pc.seen) && Asked(c, run[i].pc.seen)
  {
    var p := run[i - 1].pc;
    ReadsKept(run, i, p.since, p.seen);
    forall k | 0 <= k < |run[i].pc.seen| ensures p.since <= run[i].pc.seen[k].at <= i {
      if k < |p.seen| { assert run[i].pc.seen[k] == p.seen[k]; }
    }
  }

  lemma StepKeepsPass(c: Config, run: seq<State>, i: nat, a: Action)
    requires 0 < i < |run| && Inv(c, run, i - 1)
    requires Enabled(c, run[i - 1], a) && run[i] == Act(c, run[i - 1], a)
    ensures var s := run[i];
      && (s.pc.Reading? ==> ReadsHappened(run, i, s.pc.since, s.pc.seen) && Asked(c, s.pc.seen))
      && (s.pc.Deleting? ==>
            && ReadsHappened(run, i, s.pc.since, s.pc.seen)
            && Asked(c, s.pc.seen) && |s.pc.seen| == |c.clients|
            && forall x :: x in s.pc.todo ==> x in ListFor(c, s.pc.path, s.pc.seen))
  {
    var p := run[i - 1].pc;
    if a.ReadNext? {
      ReadNextHappened(c, run, i, a);
    } else if p.Reading? {
      ReadsKept(run, i, p.since, p.seen);
    }
    if p.Deleting? {
      ReadsKept(run, i, p.since, p.seen);
      if a.DeleteNext? {
        forall x | x in run[i].pc.todo ensures x in ListFor(c, p.path, p.seen) { assert x in p.todo; }
      }
    }
  }

  lemma {:induction false} RunInv(c: Config, run: seq<State>, i: nat)
    requires IsRun(c, run) && i < |run|
    ensures Inv(c, run, i)
  {
    if i == 0 {
    } else {
      RunInv(c, run, i - 1);
      assert Next(c, run[i - 1], run[i]);
      var a :| Enabled(c, run[i - 1], a) && Act(c, run[i - 1], a) == run[i];
      StepKeepsLog(c, run, i, a);
      StepKeepsPass(c, run, i, a);
    }
  }

  // ---------------------------------------------------------------- migration safety

  /** Under a fixed spec no run, whatever the environment does in between, lets either list delete the
      AdvDeployment of a cluster of the spec. */
  lemma NeverDeletesExpected(c: Config, run: seq<State>, i: nat, d: Deletion)
    requires IsRun(c, run) && i < |run| && d in run[i].log
    ensures d.cluster !in Names(c.spec)
  {
    RunInv(c, run, i);
    if d.cluster in Names(c.spec) { NeverExpected(c.spec, Views(d.seen), d.cluster); }
  }

  /** What the pass had read of the cluster of a zone-aware deletion: an AdvDeployment with a zone label that
      might be cleared, in a cluster outside the spec. */
  lemma DeletionWasRead(c: Config, run: seq<State>, i: nat, d: Deletion) returns (gone: nat)
    requires IsRun(c, run) && i < |run| && d in run[i].log && d.path.Sync?
    ensures forall t :: t in c.spec ==> t.name != d.cluster
    ensures gone < |d.seen| && d.seen[gone].view.cluster == d.cluster && MayClear(c.spec, Views(d.seen), gone)
  {
    RunInv(c, run, i);
    ListedIff(c.spec, Views(d.seen), d.cluster);
    gone :| 0 <= gone < |Views(d.seen)| && Views(d.seen)[gone].cluster == d.cluster
            && MayClear(c.spec, Views(d.seen), gone);
  }

  /** In every run, whatever the environment does: when the zone-aware path deletes an AdvDeployment, the pass
      had asked every client and seen that one with a zone label, and if the zone is wanted, then every other
      AdvDeployment labelled with it, in a cluster whose client answered, had its generation observed and was
      Running at the moment the client was asked; and that moment lies within the pass. */
  lemma DeletesInWantedZoneOnlyWhenOthersRun(c: Config, run: seq<State>, i: nat, d: Deletion) returns (gone: nat)
    requires IsRun(c, run) && i < |run| && d in run[i].log && d.path.Sync?
    ensures |d.seen| == |c.clients| && forall k :: 0 <= k < |d.seen| ==> d.seen[k].view.cluster == c.clients[k]
    ensures forall k :: 0 <= k < |d.seen| ==> d.since <= d.seen[k].at <= i
    ensures gone < |d.seen| && c.clients[gone] == d.cluster && d.seen[gone].view.adv.Some?
    ensures "sym-available-zone" in d.seen[gone].view.adv.value.labels
    ensures var zone := d.seen[gone].view.adv.value.labels["sym-available-zone"];
      Wants(c.spec, zone) ==>
        forall k :: 0 <= k < |d.seen| && d.seen[k].answered && HoldsIn(run[d.seen[k].at].world, c.clients[k], zone)
                    && c.clients[k] != d.cluster ==>
          var adv := run[d.seen[k].at].world[c.clients[k]];
          adv.generation == adv.observedGeneration && adv.status == Running
  {
    gone := DeletionWasRead(c, run, i, d);
    RunInv(c, run, i);
    assert forall k :: 0 <= k < |d.seen| ==> Views(d.seen)[k] == d.seen[k].view;
  }

  /** The cluster holds an AdvDeployment labelled with the zone. */
  ghost predicate HoldsIn(w: World, cluster: string, zone: string) {
    && cluster in w && "sym-available-zone" in w[cluster].labels && w[cluster].labels["sym-available-zone"] == zone
  }

  // ---------------------------------------------------------------- while nobody else touches the labels

  ghost predicate GentleStep(c: Config, s: State, s': State) {
    exists a :: Enabled(c, s, a) && Act(c, s, a) == s' && (a.Environment? ==> KeepsLabels(c, s.world, a.world))
  }

  /** A run in which the environment leaves the labels of the spec's clusters to the apply step. */
  ghost predicate IsGentleRun(c: Config, run: seq<State>) {
    IsRun(c, run) && forall i :: 0 < i < |run| ==> GentleStep(c, run[i - 1], run[i])
  }

  lemma LabelsKept(c: Config, s: State, a: Action)
    requires Enabled(c, s, a) && Labelled(c, s.world) && (a.Environment? ==> KeepsLabels(c, s.world, a.world))
    ensures Labelled(c, Act(c, s, a).world)
  {
    if a.ApplySpec? {
      assert c.spec[a.target] in c.spec;
    }
  }

  lemma {:induction false} GentleRunLabelled(c: Config, run: seq<State>, i: nat)
    requires IsGentleRun(c, run) && i < |run|
    ensures Labelled(c, run[i].world)
  {
    if i == 0 {
    } else {
      GentleRunLabelled(c, run, i - 1);
      assert GentleStep(c, run[i - 1], run[i]);
      var a :| Enabled(c, run[i - 1], a) && Act(c, run[i - 1], a) == run[i]
            && (a.Environment? ==> KeepsLabels(c, run[i - 1].world, a.world));
      LabelsKept(c, run[i - 1], a);
    }
  }

  /** The cluster is in the spec, and every entry of that name puts it in the zone. */
  ghost predicate BelongsTo(spec: seq<Target>, cluster: string, zone: string) {
    && (exists t :: t in spec && t.name == cluster)
    && forall t :: t in spec && t.name == cluster ==>
         (if "sym-available-zone" in t.meta then t.meta["sym-available-zone"] else "null") == zone
  }

  lemma HeldInItsZone(c: Config, run: seq<State>, i: nat, cluster: string, zone: string)
    requires IsGentleRun(c, run) && i < |run| && cluster in run[i].world && BelongsTo(c.spec, cluster, zone)
    ensures HoldsIn(run[i].world, cluster, zone) && cluster in Names(c.spec)
  {
    GentleRunLabelled(c, run, i);
    var t :| t in c.spec && t.name == cluster;
    assert cluster in Names(c.spec);
    var u :| u in c.spec && u.name == cluster && run[i].world[cluster].labels == MakeLabels(u);
  }

  /** Then the zone of an expected cluster is the one the spec gives it: every cluster of the spec that
      belongs to the zone and whose client answered, if it held an AdvDeployment, had it observed and Running
      at that moment. */
  lemma DeletesInWantedZoneOnlyWhenExpectedRun(c: Config, run: seq<State>, i: nat, d: Deletion) returns (gone: nat)
    requires IsGentleRun(c, run) && i < |run| && d in run[i].log && d.path.Sync?
    ensures |d.seen| == |c.clients| && forall k :: 0 <= k < |d.seen| ==> d.since <= d.seen[k].at <= i
    ensures gone < |d.seen| && c.clients[gone] == d.cluster && d.seen[gone].view.adv.Some?
    ensures "sym-available-zone" in d.seen[gone].view.adv.value.labels
    ensures var zone := d.seen[gone].view.adv.value.labels["sym-available-zone"];
      Wants(c.spec, zone) ==>
        forall k :: 0 <= k < |d.seen| && d.seen[k].answered && c.clients[k] in run[d.seen[k].at].world
                    && BelongsTo(c.spec, c.clients[k], zone) ==>
          var adv := run[d.seen[k].at].world[c.clients[k]];
          adv.generation == adv.observedGeneration && adv.status == Running
  {
    gone := DeletesInWantedZoneOnlyWhenOthersRun(c, run, i, d);
    NeverDeletesExpected(c, run, i, d);
    var zone := d.seen[gone].view.adv.value.labels["sym-available-zone"];
    forall k | 0 <= k < |d.seen| && c.clients[k] in run[d.seen[k].at].world && BelongsTo(c.spec, c.clients[k], zone)
      ensures HoldsIn(run[d.seen[k].at].world, c.clients[k], zone) && c.clients[k] != d.cluster
    {
      HeldInItsZone(c, run, d.seen[k].at, c.clients[k], zone);
    }
  }

  // ---------------------------------------------------------------- that it deletes at all

  /** A step that is not the environment's changes the world in one of two ways: it creates, in a cluster of the
      spec without one, an unobserved AdvDeployment labelled with the cluster's name and zone, or it deletes
      the AdvDeployment of one cluster, and puts that on record. */
  lemma StepOnWorld(c: Config, s: State, a: Action)
    requires Enabled(c, s, a) && !a.Environment? && Act(c, s, a).world != s.world
    ensures var w := Act(c, s, a).world;
      || (exists t :: t in c.spec && t.name !in s.world && w.Keys == s.world.Keys + {t.name}
                      && (forall x :: x in s.world ==> w[x] == s.world[x])
                      && w[t.name].generation != w[t.name].observedGeneration && w[t.name].status == Installing
                      && InZone(View(t.name, Some(w[t.name])),
                                if "sym-available-zone" in t.meta then t.meta["sym-available-zone"] else "null"))
      || (exists d :: Act(c, s, a).log == s.log + [d] && d.cluster in s.world && w == s.world - {d.cluster})
  {
    match a
    case ApplySpec(i) => assert c.spec[i] in c.spec;
    case DeleteNext(done) =>
      var d := Deletion(s.pc.todo[0], s.pc.path, s.pc.since, s.pc.seen);
      assert Act(c, s, a).log == s.log + [d];
    case _ =>
  }

  /** Every deletion on record took the AdvDeployment of its cluster out of the world, and nothing else. */
  lemma {:induction false} DeletionHappened(c: Config, run: seq<State>, i: nat, d: Deletion) returns (j: nat)
    requires IsRun(c, run) && i < |run| && d in run[i].log
    ensures j < i && d.cluster in run[j].world && run[j + 1].world == run[j].world - {d.cluster}
    ensures d !in run[j].log && d in run[j + 1].log
  {
    assert i > 0;
    assert Next(c, run[i - 1], run[i]);
    var a :| Enabled(c, run[i - 1], a) && Act(c, run[i - 1], a) == run[i];
    if d in run[i - 1].log {
      j := DeletionHappened(c, run, i - 1, d);
    } else {
      j := i - 1;
    }
  }

  lemma Extend(c: Config, run: seq<State>, a: Action) returns (longer: seq<State>)
    requires IsRun(c, run) && Enabled(c, run[|run| - 1], a)
    ensures IsRun(c, longer) && longer == run + [Act(c, run[|run| - 1], a)]
  {
    longer := run + [Act(c, run[|run| - 1], a)];
    assert Next(c, run[|run| - 1], longer[|run|]);
    forall i | 0 < i < |longer| ensures Next(c, longer[i - 1], longer[i]) {
      if i < |run| { assert Next(c, run[i - 1], run[i]); }
    }
  }

  /** A pass over two clients that both answer, on either path. */
  lemma PassReads(c: Config, run: seq<State>, path: Path, x: string, y: string) returns (longer: seq<State>)
    requires IsRun(c, run) && c.clients == [x, y]
    requires var s := run[|run| - 1]; s.pc.Idle? && x in s.world && y in s.world
    ensures IsRun(c, longer) && run <= longer
    ensures var s, t := run[|run| - 1], longer[|longer| - 1];
      && t.world == s.world && t.pc.Deleting?
      && t.pc.todo == var views := [View(x, Some(s.world[x])), View(y, Some(s.world[y]))];
                      if path.Sync? then UnexpectedSync(c.spec, views) else Unexpected(c.spec, views)
  {
    var s := run[|run| - 1];
    longer := Extend(c, run, Begin(path));
    longer := Extend(c, longer, ReadNext(true));
    longer := Extend(c, longer, ReadNext(true));
    var seen := longer[|longer| - 1].pc.seen;
    assert Views(seen) == [View(x, Some(s.world[x])), View(y, Some(s.world[y]))];
    longer := Extend(c, longer, ReadAll);
  }

  lemma StartsWith(c: Config, world: World) returns (run: seq<State>)
    requires |c.spec| > 0
    ensures IsRun(c, run) && |run| == 3
    ensures c.spec[0].name in run[1].world && run[2].world == world && run[2].pc.Idle?
  {
    run := [Init()];
    run := Extend(c, run, ApplySpec(0));
    run := Extend(c, run, Environment(world));
  }

  /** The pass carries out the last deletion on its list, and ends. */
  lemma ClearsOne(c: Config, run: seq<State>) returns (longer: seq<State>)
    requires IsRun(c, run)
    requires var s := run[|run| - 1]; s.pc.Deleting? && |s.pc.todo| == 1 && s.pc.todo[0] in s.world
    ensures IsRun(c, longer) && run <= longer && longer[|longer| - 1].pc.Idle?
    ensures longer[|longer| - 1].world == run[|run| - 1].world - {run[|run| - 1].pc.todo[0]}
  {
    longer := Extend(c, run, DeleteNext(true));
    longer := Extend(c, longer, EndPass);
  }

  /** It does happen: the spec moves a zone from one cluster to another; once the new one's AdvDeployment is
      Running, a pass on either path reads both and deletes that of the old one. */
  lemma OldClusterIsCleared(c: Config, zone: string, old1: string, new1: string, adv: Adv, path: Path)
    returns (run: seq<State>)
    requires old1 != new1 && zone != ""
    requires c == Config([Target(new1, map["sym-available-zone" := zone])], [old1, new1])
    requires adv == Adv(map["sym-available-zone" := zone], 1, 1, Running)
    ensures IsRun(c, run) && run[|run| - 1].world == map[new1 := adv] && run[|run| - 1].pc.Idle?
    ensures |run| > 2 && new1 in run[1].world && run[2].world == map[old1 := adv, new1 := adv]
  {
    var world := map[old1 := adv, new1 := adv];
    run := StartsWith(c, world);
    var longer := PassReads(c, run, path, old1, new1);
    OldClusterIsListed(c.spec, zone, old1, new1, adv, adv);
    assert longer[|longer| - 1].pc.todo == [old1] && longer[1] == run[1] && longer[2] == run[2];
    assert world - {old1} == map[new1 := adv];
    run := ClearsOne(c, longer);
  }
}
