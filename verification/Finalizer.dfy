/** The finalizer protocol of the master: how an AppSet, its finalizer and the AdvDeployments in the
    connected clusters come and go over runs of reconcile rounds, user edits and deletions. */
module Finalizer {
  import opened Prelude
  import FanOut

  const FINALIZER := "sym-admin-finalizers"

  /** The stored AppSet; the resource version changes with every write. */
  datatype App = App(rv: nat, deleting: bool, finalizers: seq<string>)

  /** Where the master is within one round on its snapshot of the AppSet. */
  datatype Pc =
    | Idle
    | Holding(app: App)             // read the AppSet
    | Orphan                        // Get said not found
    | Deleted(app: App, changed: bool)   // deleteAllClusterAdvdeployment's fan-out is over

  /** holds: the connected clusters that hold the AdvDeployment; the connected set is fixed. */
  datatype State = State(app: Option<App>, nextRv: nat, holds: set<string>, pc: Pc)

  /** One cluster's answer to Delete; a not-found answer is no error. */
  datatype Answer = Gone | NotFound | Failed

  datatype Action =
    | ReadApp                                  // Get of the AppSet, fresh
    | DeleteEverywhere(answers: map<string, Answer>)
    | RemoveFinalizer(ok: bool)                // ok: the Update was not refused for another reason
    | AddFinalizer(ok: bool)
    // stepApplySpec and the steps after it, which may also remove from unused clusters
    | ApplyTo(created: set<string>, removed: set<string>)
    | UserCreates(finalizers: seq<string>)
    | UserDeletes
    | UserEdits(finalizers: seq<string>)       // never takes the master's finalizer away

  datatype Config = Config(connected: set<string>)

  /** utils.RemoveSliceString. */
  function Remove(s: seq<string>, x: string): seq<string> {
    if s == [] then [] else Remove(s[..|s| - 1], x) + if s[|s| - 1] == x then [] else [s[|s| - 1]]
  }

  lemma {:induction false} RemoveRemoves(s: seq<string>, x: string)
    ensures x !in Remove(s, x) && forall y :: y in Remove(s, x) <==> y in s && y != x
  {
    if s == [] {
    } else {
      RemoveRemoves(s[..|s| - 1], x);
      assert s == s[..|s| - 1] + [s[|s| - 1]];
    }
  }

  /** Order and repetition of the others are kept. */
  lemma {:induction false} RemoveConcat(s: seq<string>, t: seq<string>, x: string)
    ensures Remove(s + t, x) == Remove(s, x) + Remove(t, x)
    ensures t != [] ==> Remove([t[|t| - 1]], x) == if t[|t| - 1] == x then [] else [t[|t| - 1]]
  {
    if t == [] {
      assert s + t == s;
    } else {
      var front, last := t[..|t| - 1], t[|t| - 1];
      RemoveConcat(s, front, x);
      assert (s + t)[..|s + t| - 1] == s + front;
      assert [last][..0] == [] && Remove([], x) == [];
    }
  }

  method RemoveSliceString(slice: seq<string>, s: string) returns (result: seq<string>)
    ensures result == Remove(slice, s)
  {
    result := [];
    for i := 0 to |slice|
      invariant result == Remove(slice[..i], s)
    {
      assert slice[..i + 1][..i] == slice[..i];
      if slice[i] == s { continue; }
      result := result + [slice[i]];
    }
    assert slice[..|slice|] == slice;
  }

  /** What a connected cluster can answer: it says Gone only if it held the AdvDeployment, NotFound
      only if it did not, and may always fail. */
  predicate AnswersOk(c: Config, holds: set<string>, answers: map<string, Answer>) {
    && answers.Keys == c.connected
    && forall x :: x in answers ==> (answers[x].Gone? ==> x in holds) && (answers[x].NotFound? ==> x !in holds)
  }

  function WithFinalizer(a: App): App { a.(finalizers := a.finalizers + [FINALIZER]) }

  /** An Update of the AppSet: refused on a stale resource version; an AppSet under deletion without
      finalizers disappears. */
  function Store(s: State, written: App): State {
    if s.app != None && s.app.value.rv == written.rv then
      if written.deleting && written.finalizers == [] then s.(app := None)
      else s.(app := Some(written.(rv := s.nextRv)), nextRv := s.nextRv + 1)
    else s
  }

  predicate Enabled(c: Config, s: State, a: Action) {
    match a
    case ReadApp => s.pc.Idle?
    case DeleteEverywhere(answers) =>
      (s.pc.Orphan? || (s.pc.Holding? && s.pc.app.deleting)) && AnswersOk(c, s.holds, answers)
    case RemoveFinalizer(_) => s.pc.Deleted?
    case AddFinalizer(_) => s.pc.Holding? && !s.pc.app.deleting && FINALIZER !in s.pc.app.finalizers
    case ApplyTo(created, _) => CanApply(s) && created <= c.connected
    case UserCreates(_) => s.app.None?
    case UserDeletes => s.app.Some?
    case UserEdits(finalizers) => s.app.Some? && (FINALIZER in s.app.value.finalizers ==> FINALIZER in finalizers)
  }

  /** The round at hand read the AppSet with the master's finalizer and not under deletion. */
  predicate CanApply(s: State) { s.pc.Holding? && !s.pc.app.deleting && FINALIZER in s.pc.app.finalizers }

  /** stepCheckDeletionTime comes first and stops the round, stepAddFinalizer comes second and stops it
      when it had to add: so deletion, adding and applying exclude each other within a round. */
  function Act(c: Config, s: State, a: Action): State
    requires Enabled(c, s, a)
  {
    match a
    case ReadApp => s.(pc := if s.app.Some? then Holding(s.app.value) else Orphan)
    case DeleteEverywhere(answers) =>
      var gone := set x | x in answers && answers[x].Gone?;
      var t := s.(holds := s.holds - gone);
      if s.pc.Orphan? then t.(pc := Idle) else t.(pc := Deleted(s.pc.app, gone != {}))
    case RemoveFinalizer(ok) =>
      var t := s.(pc := Idle);
      if s.pc.changed || s.pc.app.finalizers == [] || !ok then t
      else Store(t, s.pc.app.(finalizers := Remove(s.pc.app.finalizers, FINALIZER)))
    case AddFinalizer(ok) =>
      var t := s.(pc := Idle);
      if ok then Store(t, WithFinalizer(s.pc.app)) else t
    case ApplyTo(created, removed) => s.(pc := Idle, holds := s.holds + created - removed)
    case UserCreates(finalizers) => s.(app := Some(App(s.nextRv, false, finalizers)), nextRv := s.nextRv + 1)
    case UserDeletes =>
      if s.app.value.finalizers == [] then s.(app := None)
      else s.(app := Some(App(s.nextRv, true, s.app.value.finalizers)), nextRv := s.nextRv + 1)
    case UserEdits(finalizers) =>
      if s.app.value.deleting && finalizers == [] then s.(app := None)
      else s.(app := Some(App(s.nextRv, s.app.value.deleting, finalizers)), nextRv := s.nextRv + 1)
  }

  predicate ErrorFree(a: Action) {
    a.DeleteEverywhere? ==> forall x :: x in a.answers ==> !a.answers[x].Failed?
  }

  function Init(): State { State(None, 0, {}, Idle) }

  /** actions[i] leads from run[i] to run[i + 1]. */
  ghost predicate IsRun(c: Config, run: seq<State>, actions: seq<Action>) {
    && |run| == |actions| + 1 && run[0] == Init()
    && forall i :: 0 <= i < |actions| ==> Enabled(c, run[i], actions[i]) && run[i + 1] == Act(c, run[i], actions[i])
  }

  // ---------------------------------------------------------------- versions

  /** Equal resource versions mean equal content. */
  predicate SnapshotOk(s: State, a: App) {
    a.rv < s.nextRv && (s.app.Some? && s.app.value.rv == a.rv ==> s.app.value == a)
  }

  /** The facts of every history: versions are spent in order, a snapshot of the stored version is the
      stored AppSet, and a delete fan-out on a snapshot was for one under deletion. */
  ghost predicate Versioned(s: State) {
    && (s.app.Some? ==> s.app.value.rv < s.nextRv)
    && (s.pc.Holding? ==> SnapshotOk(s, s.pc.app))
    && (s.pc.Deleted? ==> SnapshotOk(s, s.pc.app) && s.pc.app.deleting)
  }

  lemma StepVersioned(c: Config, s: State, a: Action)
    requires Versioned(s) && Enabled(c, s, a)
    ensures Versioned(Act(c, s, a))
  {
  }

  lemma {:induction false} RunVersioned(c: Config, run: seq<State>, actions: seq<Action>, i: nat)
    requires IsRun(c, run, actions) && i < |run|
    ensures Versioned(run[i])
  {
    if i == 0 {
    } else {
      RunVersioned(c, run, actions, i - 1);
      StepVersioned(c, run[i - 1], actions[i - 1]);
    }
  }

  // ---------------------------------------------------------------- what the master's own steps change

  /** A delete fan-out, for an AppSet under deletion or for one that is gone, leaves the AdvDeployment exactly
      where it was and the delete failed. */
  lemma DeleteRoundLeaves(c: Config, s: State, answers: map<string, Answer>)
    requires Enabled(c, s, DeleteEverywhere(answers)) && s.holds <= c.connected
    ensures forall x :: x in Act(c, s, DeleteEverywhere(answers)).holds <==>
                x in s.holds && x in answers && answers[x].Failed?
  {
    assert forall x :: x in s.holds ==> x in answers && !answers[x].NotFound?;
  }

  /** So one round that finds the AppSet gone clears the connected clusters of what is left behind, wherever the
      delete does not fail. */
  lemma OrphanRoundClears(c: Config, s: State, answers: map<string, Answer>)
    requires s.pc.Idle? && s.app.None? && s.holds <= c.connected && AnswersOk(c, s.holds, answers)
    ensures Enabled(c, s, ReadApp) && Enabled(c, Act(c, s, ReadApp), DeleteEverywhere(answers))
    ensures var t := Act(c, Act(c, s, ReadApp), DeleteEverywhere(answers));
      && t.pc.Idle? && t.app.None?
      && (forall x :: x in t.holds <==> x in s.holds && answers[x].Failed?)
      && ((forall x :: x in answers ==> !answers[x].Failed?) ==> t.holds == {})
  {
    DeleteRoundLeaves(c, Act(c, s, ReadApp), answers);
  }

  /** The finalizers are a list the master shares with others: it only ever appends its own, to an AppSet not
      under deletion, or takes its own away, from one that is; the AppSet disappears when none is left. And it
      writes only what it has just read, and only if the update is not refused. */
  lemma MasterKeepsOtherFinalizers(c: Config, s: State, a: Action)
    requires Versioned(s) && Enabled(c, s, a) && !a.UserCreates? && !a.UserDeletes? && !a.UserEdits?
    requires Act(c, s, a).app != s.app
    ensures s.app.Some? && (a.AddFinalizer? || a.RemoveFinalizer?) && a.ok && s.pc.app == s.app.value
    ensures var before, after := s.app.value, Act(c, s, a).app;
      if a.AddFinalizer? then
        && !before.deleting && "sym-admin-finalizers" !in before.finalizers
        && after == Some(App(s.nextRv, false, before.finalizers + ["sym-admin-finalizers"]))
      else
        && before.deleting
        && if forall y :: y in before.finalizers ==> y == "sym-admin-finalizers" then after == None
           else after.Some? && after.value.deleting && after.value.rv == s.nextRv
                && forall y :: y in after.value.finalizers <==> y in before.finalizers && y != "sym-admin-finalizers"
  {
    if a.RemoveFinalizer? {
      RemoveRemoves(s.pc.app.finalizers, FINALIZER);
      var left := Remove(s.pc.app.finalizers, FINALIZER);
      assert left == [] <==> forall y :: y in s.pc.app.finalizers ==> y == FINALIZER by {
        if left != [] { assert left[0] in left; }
      }
    }
  }

  // ---------------------------------------------------------------- at most one more apply

  /** The stored AppSet is under deletion or gone. */
  predicate Ending(s: State) { s.app.Some? ==> s.app.value.deleting }

  /** How many of the actions from i up to j apply the spec. */
  function Applies(actions: seq<Action>, i: nat, j: nat): nat
    requires i <= j <= |actions|
  {
    if i == j then 0 else Applies(actions, i, j - 1) + if actions[j - 1].ApplyTo? then 1 else 0
  }

  function Bound(s: State): nat { if CanApply(s) then 1 else 0 }

  lemma EndingStep(c: Config, s: State, a: Action)
    requires Versioned(s) && Ending(s) && Enabled(c, s, a) && !a.UserCreates?
    ensures Ending(Act(c, s, a))
    ensures (if a.ApplyTo? then 1 else 0) + Bound(Act(c, s, a)) <= Bound(s)
    ensures !a.ApplyTo? ==> Act(c, s, a).holds <= s.holds
  {
  }

  predicate NoneCreates(actions: seq<Action>, i: nat, j: nat)
    requires i <= j <= |actions|
  {
    forall k :: i <= k < j ==> !actions[k].UserCreates?
  }

  /** Once the stored AppSet is under deletion or gone, over any number of rounds and whatever users do
      short of creating it anew, the spec is applied at most once more, and not at all unless the round at
      hand can still apply what it read before. */
  lemma {:induction false} AtMostOneApplyWhileDeleting(c: Config, run: seq<State>, actions: seq<Action>, i: nat, j: nat)
    requires IsRun(c, run, actions) && i <= j < |run| && Ending(run[i]) && NoneCreates(actions, i, j)
    ensures Ending(run[j])
    ensures Applies(actions, i, j) + Bound(run[j]) <= Bound(run[i])
    ensures Applies(actions, i, j) == 0 ==> run[j].holds <= run[i].holds
    decreases j
  {
    if i == j {
    } else {
      AtMostOneApplyWhileDeleting(c, run, actions, i, j - 1);
      RunVersioned(c, run, actions, j - 1);
      EndingStep(c, run[j - 1], actions[j - 1]);
    }
  }

  /** So nothing is created from any such state on in which the round at hand cannot apply. */
  lemma NothingIsRecreatedWhileDeleting(c: Config, run: seq<State>, actions: seq<Action>, i: nat, j: nat)
    requires IsRun(c, run, actions) && i <= j < |run| && Ending(run[i]) && NoneCreates(actions, i, j)
    requires !CanApply(run[i])
    ensures Applies(actions, i, j) == 0 && run[j].holds <= run[i].holds
  {
    AtMostOneApplyWhileDeleting(c, run, actions, i, j);
  }

  /** The run goes on, without the AppSet being created anew, until the spec has been applied again. */
  ghost predicate AppliesLater(c: Config, run: seq<State>, actions: seq<Action>, run2: seq<State>,
                               actions2: seq<Action>) {
    && IsRun(c, run2, actions2) && run <= run2 && actions <= actions2
    && NoneCreates(actions2, |actions|, |actions2|) && Applies(actions2, |actions|, |actions2|) > 0
  }

  /** And it is one apply at once, which can create the AdvDeployment in every connected cluster. */
  lemma ApplyAtOnce(c: Config, run: seq<State>, actions: seq<Action>) returns (run2: seq<State>, actions2: seq<Action>)
    requires IsRun(c, run, actions) && CanApply(run[|actions|])
    ensures AppliesLater(c, run, actions, run2, actions2) && |actions2| == |actions| + 1
    ensures run2[|actions2|].holds == run[|actions|].holds + c.connected
  {
    var s, a := run[|actions|], ApplyTo(c.connected, {});
    run2, actions2 := run + [Act(c, s, a)], actions + [a];
    assert Applies(actions2, |actions|, |actions|) == 0;
  }

  /** Exactly when something can still be created for an AppSet under deletion or gone: in every run, some
      continuation applies the spec if and only if the round at hand can apply. */
  lemma AppliesLaterIff(c: Config, run: seq<State>, actions: seq<Action>)
    requires IsRun(c, run, actions) && Ending(run[|actions|])
    ensures (exists run2, actions2 :: AppliesLater(c, run, actions, run2, actions2)) <==> CanApply(run[|actions|])
  {
    if run2, actions2 :| AppliesLater(c, run, actions, run2, actions2) {
      AtMostOneApplyWhileDeleting(c, run2, actions2, |actions|, |actions2|);
    }
    if CanApply(run[|actions|]) {
      var run2, actions2 := ApplyAtOnce(c, run, actions);
    }
  }

  /** It does happen: the AppSet is deleted between a round's read and its apply. */
  lemma OldSnapshotCreates(c: Config, actions: seq<Action>) returns (run: seq<State>)
    requires c == Config({"a"})
    requires actions == [UserCreates([]), ReadApp, AddFinalizer(true), ReadApp, UserDeletes, ApplyTo({"a"}, {})]
    ensures IsRun(c, run, actions)
    ensures Ending(run[5]) && run[5].app.Some? && run[5].holds == {} && CanApply(run[5])
    ensures run[6].app == run[5].app && run[6].holds == {"a"} && Applies(actions, 5, 6) == 1
  {
    var created, finalized := App(0, false, []), App(1, false, [FINALIZER]);
    var deleted := App(2, true, [FINALIZER]);
    run := [Init(),
            State(Some(created), 1, {}, Idle),
            State(Some(created), 1, {}, Holding(created)),
            State(Some(finalized), 2, {}, Idle),
            State(Some(finalized), 2, {}, Holding(finalized)),
            State(Some(deleted), 3, {}, Holding(finalized)),
            State(Some(deleted), 3, {"a"}, Idle)];
    assert [] + [FINALIZER] == [FINALIZER];
  }

  // ---------------------------------------------------------------- what the finalizer guards

  predicate HasFinalizer(app: Option<App>) { app.Some? && FINALIZER in app.value.finalizers }

  /** The facts of an error-free history: no finalizer, nothing held; a snapshot with the finalizer is
      the stored AppSet or an older version of one that still has it; and after a delete round that
      changed nothing, nothing is held. */
  ghost predicate Guarded(c: Config, s: State) {
    && s.holds <= c.connected
    && (!HasFinalizer(s.app) ==> s.holds == {})
    && Versioned(s)
    && (s.pc.Holding? && !s.pc.app.deleting && FINALIZER in s.pc.app.finalizers ==> HasFinalizer(s.app))
    && (s.pc.Deleted? && !s.pc.changed ==> s.holds == {})
  }

  lemma StepGuarded(c: Config, s: State, a: Action)
    requires Guarded(c, s) && Enabled(c, s, a) && ErrorFree(a)
    ensures Guarded(c, Act(c, s, a))
  {
    match a
    case DeleteEverywhere(answers) =>
      var gone := set x | x in answers && answers[x].Gone?;
      forall x | x in s.holds ensures x in gone { assert x in answers; }
    case RemoveFinalizer(ok) => RemoveRemoves(s.pc.app.finalizers, FINALIZER);
    case _ =>
  }

  lemma {:induction false} RunGuarded(c: Config, run: seq<State>, actions: seq<Action>, i: nat)
    requires IsRun(c, run, actions) && i < |run|
    requires forall j :: 0 <= j < i ==> ErrorFree(actions[j])
    ensures Guarded(c, run[i])
  {
    if i == 0 {
    } else {
      RunGuarded(c, run, actions, i - 1);
      StepGuarded(c, run[i - 1], actions[i - 1]);
    }
  }

  /** The purpose of the finalizer: in every state of every run whose deletions had no errors, an
      AppSet that is gone, or lacks the finalizer, leaves no connected cluster holding an
      AdvDeployment. */
  lemma NoOrphansWithoutErrors(c: Config, run: seq<State>, actions: seq<Action>, i: nat)
    requires IsRun(c, run, actions) && i < |run|
    requires forall j :: 0 <= j < i ==> ErrorFree(actions[j])
    requires !HasFinalizer(run[i].app)
    ensures run[i].holds == {}
  {
    RunGuarded(c, run, actions, i);
  }

  /** The finalizer leaves the stored AppSet only at the end of a round in which no connected cluster's
      delete succeeded, and no step of the master came in between. */
  lemma RemovedOnlyAfterQuietRound(c: Config, run: seq<State>, actions: seq<Action>, i: nat)
    returns (j: nat)
    requires IsRun(c, run, actions) && i < |actions|
    requires HasFinalizer(run[i].app) && !HasFinalizer(run[i + 1].app)
    ensures actions[i].RemoveFinalizer? && j < i && actions[j].DeleteEverywhere?
    ensures run[j].pc.Holding? && run[j].pc.app.deleting
    ensures forall x :: x in actions[j].answers ==> !actions[j].answers[x].Gone?
    ensures forall k :: j < k <= i ==> run[k].pc == run[i].pc
  {
    var s, a := run[i], actions[i];
    assert Enabled(c, s, a) && run[i + 1] == Act(c, s, a);
    assert a.RemoveFinalizer? && s.pc.Deleted? && !s.pc.changed;
    j := DeleteRoundOf(c, run, actions, i);
    assert Enabled(c, run[j], actions[j]) && run[j + 1] == Act(c, run[j], actions[j]);
    var answers := actions[j].answers;
    var gone := set x | x in answers && answers[x].Gone?;
    assert gone == {};
    forall x | x in answers ensures !answers[x].Gone? { assert x !in gone; }
  }

  /** The fan-out a Deleted state comes from. */
  lemma {:induction false} DeleteRoundOf(c: Config, run: seq<State>, actions: seq<Action>, i: nat) returns (j: nat)
    requires IsRun(c, run, actions) && i <= |actions| && run[i].pc.Deleted?
    ensures j < i && actions[j].DeleteEverywhere? && run[j].pc.Holding? && run[j].pc.app.deleting
    ensures run[j + 1].pc == run[i].pc
    ensures forall k :: j < k <= i ==> run[k].pc == run[i].pc
  {
    assert i > 0;
    assert Enabled(c, run[i - 1], actions[i - 1]) && run[i] == Act(c, run[i - 1], actions[i - 1]);
    if actions[i - 1].DeleteEverywhere? {
      j := i - 1;
    } else {
      j := DeleteRoundOf(c, run, actions, i - 1);
    }
  }

  // ---------------------------------------------------------------- when removing it orphans

  lemma {:induction false} HoldsConnected(c: Config, run: seq<State>, actions: seq<Action>, i: nat)
    requires IsRun(c, run, actions) && i < |run|
    ensures run[i].holds <= c.connected
  {
    if i == 0 {
    } else {
      HoldsConnected(c, run, actions, i - 1);
      assert Enabled(c, run[i - 1], actions[i - 1]) && run[i] == Act(c, run[i - 1], actions[i - 1]);
    }
  }

  /** Between the fan-out and the end of its round no cluster gains or loses the AdvDeployment. */
  lemma {:induction false} HoldsStay(c: Config, run: seq<State>, actions: seq<Action>, j: nat, i: nat)
    requires IsRun(c, run, actions) && j < i < |run|
    requires forall k :: j < k <= i ==> run[k].pc.Deleted?
    ensures run[i].holds == run[j + 1].holds
  {
    if i == j + 1 {
    } else {
      HoldsStay(c, run, actions, j, i - 1);
      assert Enabled(c, run[i - 1], actions[i - 1]) && run[i] == Act(c, run[i - 1], actions[i - 1]);
    }
  }

  lemma NothingDeleted(c: Config, s: State, answers: map<string, Answer>)
    requires Enabled(c, s, DeleteEverywhere(answers)) && s.holds <= c.connected
    requires forall x :: x in answers ==> !answers[x].Gone?
    ensures Act(c, s, DeleteEverywhere(answers)).holds == s.holds
    ensures s.holds != {} <==> exists x :: x in s.holds && answers[x].Failed?
  {
    var gone := set x | x in answers && answers[x].Gone?;
    assert gone == {};
    if s.holds != {} {
      var x :| x in s.holds;
      assert x in answers && answers[x].Failed?;
    }
  }

  /** In every run, whenever the finalizer leaves the stored AppSet: what is left behind is what the clusters
      held at the round's fan-out, and something is left behind exactly when the delete in some cluster
      that held the AdvDeployment failed. */
  lemma RemovalOrphansIff(c: Config, run: seq<State>, actions: seq<Action>, i: nat) returns (j: nat)
    requires IsRun(c, run, actions) && i < |actions|
    requires HasFinalizer(run[i].app) && !HasFinalizer(run[i + 1].app)
    ensures j < i && actions[j].DeleteEverywhere? && run[j].pc.Holding? && run[j].holds <= actions[j].answers.Keys
    ensures run[i + 1].holds == run[j].holds
    ensures run[i + 1].holds != {} <==> exists x :: x in run[j].holds && actions[j].answers[x].Failed?
  {
    j := RemovedOnlyAfterQuietRound(c, run, actions, i);
    HoldsConnected(c, run, actions, j);
    HoldsStay(c, run, actions, j, i);
    assert Enabled(c, run[j], actions[j]) && run[j + 1] == Act(c, run[j], actions[j]);
    assert Enabled(c, run[i], actions[i]) && run[i + 1] == Act(c, run[i], actions[i]);
    NothingDeleted(c, run[j], actions[j].answers);
  }

  lemma Continue(c: Config, run: seq<State>, actions: seq<Action>, a: Action) returns (run2: seq<State>)
    requires IsRun(c, run, actions) && Enabled(c, run[|actions|], a)
    ensures IsRun(c, run2, actions + [a]) && run2 == run + [Act(c, run[|actions|], a)]
  {
    run2 := run + [Act(c, run[|actions|], a)];
  }

  /** A cluster gets its AdvDeployment, in three rounds. */
  lemma Created(c: Config, actions: seq<Action>) returns (run: seq<State>)
    requires c == Config({"a"})
    requires actions == [UserCreates([]), ReadApp, AddFinalizer(true), ReadApp, ApplyTo({"a"}, {})]
    ensures IsRun(c, run, actions) && run[5] == State(Some(App(1, false, [FINALIZER])), 2, {"a"}, Idle)
  {
    var created, finalized := App(0, false, []), App(1, false, [FINALIZER]);
    run := [Init(), State(Some(created), 1, {}, Idle), State(Some(created), 1, {}, Holding(created)),
            State(Some(finalized), 2, {}, Idle), State(Some(finalized), 2, {}, Holding(finalized)),
            State(Some(finalized), 2, {"a"}, Idle)];
    assert [] + [FINALIZER] == [FINALIZER];
  }

  /** It does happen: the one cluster that holds the AdvDeployment refuses the delete, and the AppSet is
      gone after its first round under deletion. */
  lemma FailedDeleteOrphans(c: Config, actions: seq<Action>) returns (run: seq<State>)
    requires c == Config({"a"})
    requires actions == [UserCreates([]), ReadApp, AddFinalizer(true), ReadApp, ApplyTo({"a"}, {}), UserDeletes,
                         ReadApp, DeleteEverywhere(map["a" := Failed]), RemoveFinalizer(true)]
    ensures IsRun(c, run, actions)
    ensures HasFinalizer(run[8].app) && run[9].app == None && run[9].holds == {"a"} && run[9].pc.Idle?
  {
    var deleted := App(2, true, [FINALIZER]);
    var answers: map<string, Answer> := map["a" := Failed];
    assert (set x | x in answers && answers[x].Gone?) == {};
    assert [FINALIZER][..0] == [] && Remove([FINALIZER], FINALIZER) == [];
    run := Created(c, actions[..5]);
    run := run + [State(Some(deleted), 3, {"a"}, Idle), State(Some(deleted), 3, {"a"}, Holding(deleted)),
                  State(Some(deleted), 3, {"a"}, Deleted(deleted, false)), State(None, 3, {"a"}, Idle)];
  }

  /** In every run: the round that finds the AppSet gone leaves the AdvDeployment exactly where its delete
      failed, so nowhere if no delete failed. */
  lemma OrphansAreCleared(c: Config, run: seq<State>, actions: seq<Action>, i: nat)
    requires IsRun(c, run, actions) && i < |actions| && run[i].pc.Orphan? && actions[i].DeleteEverywhere?
    ensures var answers := actions[i].answers;
      && run[i].holds <= answers.Keys && run[i + 1].app == run[i].app && run[i + 1].pc.Idle?
      && (forall x :: x in run[i + 1].holds <==> x in run[i].holds && answers[x].Failed?)
      && ((forall x :: x in answers ==> !answers[x].Failed?) ==> run[i + 1].holds == {})
  {
    HoldsConnected(c, run, actions, i);
    assert Enabled(c, run[i], actions[i]) && run[i + 1] == Act(c, run[i], actions[i]);
    DeleteRoundLeaves(c, run[i], actions[i].answers);
  }

  /** It does happen: what the refused delete left behind is gone after the next round. */
  lemma OrphanIsClearedNext(c: Config, actions: seq<Action>) returns (run: seq<State>)
    requires c == Config({"a"})
    requires actions == [UserCreates([]), ReadApp, AddFinalizer(true), ReadApp, ApplyTo({"a"}, {}), UserDeletes,
                         ReadApp, DeleteEverywhere(map["a" := Failed]), RemoveFinalizer(true)]
    ensures IsRun(c, run, actions + [ReadApp] + [DeleteEverywhere(map["a" := Gone])])
    ensures run[9].app == None && run[9].holds == {"a"} && run[11].app == None && run[11].holds == {}
  {
    run := FailedDeleteOrphans(c, actions);
    OrphanRoundClears(c, run[9], map["a" := Gone]);
    run := Continue(c, run, actions, ReadApp);
    run := Continue(c, run, actions + [ReadApp], DeleteEverywhere(map["a" := Gone]));
  }

  // ---------------------------------------------------------------- rounds

  /** One undisturbed deletion round: read, delete everywhere, remove the finalizer. */
  function Round(c: Config, s: State, answers: map<string, Answer>, ok: bool): State
    requires s.pc.Idle? && s.app.Some? && s.app.value.deleting && AnswersOk(c, s.holds, answers)
  {
    var s1 := Act(c, s, ReadApp);
    var s2 := Act(c, s1, DeleteEverywhere(answers));
    Act(c, s2, RemoveFinalizer(ok))
  }

  /** Errors count as "nothing changed": an undisturbed round removes the finalizer exactly when no delete
      succeeded, whatever failed. */
  lemma RoundRemovesIff(c: Config, s: State, answers: map<string, Answer>)
    requires s.pc.Idle? && s.app.Some? && s.app.value.deleting && AnswersOk(c, s.holds, answers)
    requires HasFinalizer(s.app)
    ensures !HasFinalizer(Round(c, s, answers, true).app) <==> forall x :: x in answers ==> !answers[x].Gone?
  {
    var gone := set x | x in answers && answers[x].Gone?;
    RemoveRemoves(s.app.value.finalizers, FINALIZER);
    if gone != {} {
      var x :| x in gone;
    } else {
      forall x | x in answers ensures !answers[x].Gone? { assert x !in gone; }
    }
  }

  predicate NoFailures(answers: map<string, Answer>) { forall x :: x in answers ==> !answers[x].Failed? }

  /** Two undisturbed error-free rounds suffice: the first clears every connected cluster, the second
      finds nothing and removes the finalizer. */
  lemma TwoRoundsSuffice(c: Config, s: State, first: map<string, Answer>, second: map<string, Answer>)
    requires s.pc.Idle? && s.app.Some? && s.app.value.deleting && HasFinalizer(s.app) && s.holds <= c.connected
    requires AnswersOk(c, s.holds, first) && NoFailures(first)
    ensures var t := Round(c, s, first, true);
      && t.holds == {} && t.pc.Idle?
      && (t.app.Some? && HasFinalizer(t.app) && AnswersOk(c, {}, second) && NoFailures(second) ==>
            t.app.value.deleting && !HasFinalizer(Round(c, t, second, true).app))
  {
    var gone := set x | x in first && first[x].Gone?;
    forall x | x in s.holds ensures x in gone { assert x in first; }
    var t := Round(c, s, first, true);
    RemoveRemoves(s.app.value.finalizers, FINALIZER);
    if t.app.Some? && HasFinalizer(t.app) && AnswersOk(c, {}, second) && NoFailures(second) {
      RoundRemovesIff(c, t, second);
    }
  }

  // ---------------------------------------------------------------- the fan-out behind a round

  /** What one cluster's delete handler returns: changed for Gone, an error for Failed. */
  function Handled(a: Answer, err: string): FanOut.Outcome<()> {
    FanOut.Outcome(None, a.Gone?, if a.Failed? then Some(err) else None)
  }

  /** The `changed` of DeleteEverywhere is what the concurrent fan-out answers, in any interleaving. */
  lemma ChangedIsTheFanOutAnswer(fan: FanOut.Config<()>, f: FanOut.State, clusters: seq<string>,
                                 answers: map<string, Answer>, errs: seq<string>)
    requires FanOut.Reachable(fan, f) && f.main.Returned? && fan.variant.EachCluster?
    requires |clusters| == |errs| == |fan.outs| < TWO_31
    requires forall x :: x in clusters <==> x in answers
    requires forall i :: 0 <= i < |clusters| ==>
               clusters[i] in answers && fan.outs[i] == Handled(answers[clusters[i]], errs[i])
    ensures f.changed > 0 <==> (set x | x in answers && answers[x].Gone?) != {}
  {
    FanOut.IsChangedIffSomeChange(fan, f);
    var gone := set x | x in answers && answers[x].Gone?;
    if f.changed > 0 {
      var o :| o in fan.outs && o.changed;
      var i :| 0 <= i < |fan.outs| && fan.outs[i] == o;
      assert clusters[i] in gone;
    }
    if gone != {} {
      var x :| x in gone;
      var i :| 0 <= i < |clusters| && clusters[i] == x;
      assert fan.outs[i] in fan.outs;
    }
  }
}
