/** The worker's optimistic status write: read, compare, write against the version read, and on any
    failure read again and compare, up to five times on conflicts. Other clients write in between. */
module StatusWrite {
  import opened Prelude
  import opened Api
  import opened Context

  /** retry.DefaultRetry of client-go. */
  const STEPS := 5

  datatype Content = Content(spec: nat, generation: int64, observedGeneration: int64, aggr: AggrStatus)

  /** An AdvDeployment as stored and as read; the resource version is the position in the history. */
  datatype Stored = Stored(version: nat, content: Content)

  type History = seq<Option<Stored>>

  datatype Reply = Ok | NotFound | Conflict | OtherError

  /** What an API call of the step runs into: Fails is not carried out, LostReply is carried out but
      answered with an error. */
  datatype Fault = NoFault | Fails | LostReply

  /** The interference one API call meets: the writes of other clients just before it (None deletes the
      object), a fault, and how many states a read may lag behind. */
  datatype Slot = Slot(writes: seq<Option<Content>>, fault: Fault, lag: nat)

  /** The step's own calls, as the server sees them. */
  datatype Event = Read(version: nat) | Conflicted(base: nat, current: nat) | Wrote(version: nat)

  ghost predicate VersionsArePositions(h: History) {
    forall i :: 0 <= i < |h| && h[i].Some? ==> h[i].value.version == i
  }

  /** The state after position v differs from the one at v in nothing the step may not touch. */
  ghost predicate KeepsSpec(h: History, v: nat) {
    && v + 1 < |h| && h[v].Some? && h[v + 1].Some?
    && h[v + 1].value.content.spec == h[v].value.content.spec
    && h[v + 1].value.content.generation == h[v].value.content.generation
  }

  /** Every write of the step replaced the very version its last call had read, and changed only the status. */
  ghost predicate WritesOnLastRead(log: seq<Event>, h: History) {
    forall p :: 0 <= p < |log| && log[p].Wrote? ==> 0 < p && log[p - 1].Read? && WroteOn(log[p], log[p - 1].version, h)
  }

  ghost predicate WroteOn(e: Event, v: nat, h: History) { e == Wrote(v + 1) && KeepsSpec(h, v) }

  predicate NoWrites(log: seq<Event>) { forall p :: 0 <= p < |log| ==> !log[p].Wrote? }

  predicate AtMostOneWrite(log: seq<Event>) {
    forall p, q :: 0 <= p < q < |log| ==> !(log[p].Wrote? && log[q].Wrote?)
  }

  function StateOf(version: nat, content: Option<Content>): Option<Stored> {
    if content.None? then None else Some(Stored(version, content.value))
  }

  /** The API server's record of one AdvDeployment: all states so far, the last one current. */
  class ApiServer {
    var history: History
    var log: seq<Event>

    ghost predicate Valid()
      reads this
    {
      history != [] && VersionsArePositions(history)
    }

    constructor (content: Content)
      ensures Valid() && history == [Some(Stored(0, content))] && log == []
    {
      history, log := [Some(Stored(0, content))], [];
    }

    function Current(): Option<Stored>
      requires history != []
      reads this
    {
      history[|history| - 1]
    }

    /** Other clients may store whatever they like, or delete. */
    method OthersWrite(writes: seq<Option<Content>>)
      requires Valid()
      modifies this`history
      ensures Valid() && old(history) <= history && |history| == |old(history)| + |writes|
      ensures forall i :: 0 <= i < |writes| ==> history[|old(history)| + i] == StateOf(|old(history)| + i, writes[i])
    {
      for i := 0 to |writes|
        invariant Valid() && old(history) <= history && |history| == |old(history)| + i
        invariant forall j :: 0 <= j < i ==> history[|old(history)| + j] == StateOf(|old(history)| + j, writes[j])
      {
        history := history + [StateOf(|history|, writes[i])];
      }
    }

    /** A read returns a state no older than `horizon` and than its lag. */
    method Fetch(slot: Slot, horizon: nat) returns (obj: Stored, reply: Reply)
      requires Valid() && horizon < |history|
      modifies this`history
      ensures Valid() && old(history) <= history
      ensures reply == Ok ==>
                && horizon <= obj.version < |history| && history[obj.version] == Some(obj)
                && obj.version >= |history| - 1 - slot.lag
      ensures reply != Conflict && (reply == OtherError <==> slot.fault != NoFault)
      ensures reply == NotFound ==> exists k :: horizon <= k < |history| && history[k].None?
      ensures |history| == |old(history)| + |slot.writes| && (slot.writes == [] ==> history == old(history))
      ensures slot == Slot([], NoFault, 0) && Current().Some? ==> reply == Ok && Some(obj) == Current()
    {
      OthersWrite(slot.writes);
      obj := Stored(0, Content(0, 0, 0, AggrStatus([], OtherStatus(""), "", 0, 0, 0, [])));
      if slot.fault != NoFault { return obj, OtherError; }
      var at := |history| - 1 - slot.lag;
      if at < horizon { at := horizon; }
      if history[at].None? { return obj, NotFound; }
      obj, reply := history[at].value, Ok;
    }

    /** A read of the status step. */
    method Get(slot: Slot, horizon: nat) returns (obj: Stored, reply: Reply)
      requires Valid() && horizon < |history|
      modifies this
      ensures Valid() && old(history) <= history
      ensures reply == Ok ==>
                && horizon <= obj.version < |history| && history[obj.version] == Some(obj)
                && log == old(log) + [Read(obj.version)]
                && obj.version >= |history| - 1 - slot.lag
      ensures reply != Ok ==> log == old(log) && reply != Conflict
      ensures reply == OtherError <==> slot.fault != NoFault
      ensures reply == NotFound ==> exists k :: horizon <= k < |history| && history[k].None?
      ensures |history| == |old(history)| + |slot.writes| && (slot.writes == [] ==> history == old(history))
      ensures slot == Slot([], NoFault, 0) && Current().Some? ==> reply == Ok && Some(obj) == Current()
    {
      obj, reply := Fetch(slot, horizon);
      if reply == Ok { log := log + [Read(obj.version)]; }
    }

    /** Writing the status subresource: refused unless the stored object still has the version the write
        is based on; the stored spec and generation stay. */
    method StatusUpdate(obj: Stored, slot: Slot) returns (reply: Reply)
      requires Valid()
      modifies this
      ensures Valid() && old(history) <= history
      ensures match reply {
                case Ok => log == old(log) + [Wrote(obj.version + 1)] && Landed(history, obj)
                case NotFound => log == old(log) && Current().None?
                case Conflict =>
                  && Current().Some? && Current().value.version != obj.version
                  && log == old(log) + [Conflicted(obj.version, Current().value.version)]
                case OtherError =>
                  log == old(log) || (log == old(log) + [Wrote(obj.version + 1)] && Landed(history, obj))
              }
      ensures slot.fault == NoFault ==> reply != OtherError
      ensures slot.fault != NoFault ==> reply != Ok
      ensures |history| == |old(history)| + |slot.writes|
                + if |log| > |old(log)| && log[|old(log)|].Wrote? then 1 else 0
      ensures slot == Slot([], NoFault, 0) && old(Current()).Some? && old(Current()).value.version == obj.version ==>
                reply == Ok
    {
      OthersWrite(slot.writes);
      if slot.fault == Fails { return OtherError; }
      if Current().None? { return NotFound; }
      var stored := Current().value;
      if stored.version != obj.version {
        log := log + [Conflicted(obj.version, stored.version)];
        return Conflict;
      }
      var c := stored.content;
      history := history +
          [Some(Stored(|history|, Content(c.spec, c.generation, obj.content.observedGeneration, obj.content.aggr)))];
      log := log + [Wrote(|history| - 1)];
      reply := if slot.fault == LostReply then OtherError else Ok;
    }
  }

  /** obj's status is the current state, directly on top of the version it was based on. */
  ghost predicate Landed(h: History, obj: Stored) {
    var v := obj.version;
    && |h| == v + 2 && h[v].Some?
    && h[v + 1] == Some(Stored(v + 1, Content(h[v].value.content.spec, h[v].value.content.generation,
                                              obj.content.observedGeneration, obj.content.aggr)))
  }

  // ---------------------------------------------------------------- the step

  /** The test that saves a write (controllers/advdeployment/step.go:530 and :557). */
  predicate NeedsNoWrite(c: Content, computed: AggrStatus) {
    c.observedGeneration == c.generation && c.aggr == computed
  }

  function ObservedFor(generation: int64, generationEqual: bool): int64 {
    if generationEqual then generation else Wrap64(generation - 1)
  }

  /** The state at k carries the computed status, with the observed generation a write puts there. */
  predicate Written(h: History, k: nat, computed: AggrStatus, generationEqual: bool) {
    && k < |h| && h[k].Some? && h[k].value.content.aggr == computed
    && h[k].value.content.observedGeneration == ObservedFor(h[k].value.content.generation, generationEqual)
  }

  /** The state at k carried it already, with its generation observed. */
  predicate Found(h: History, k: nat, computed: AggrStatus) {
    k < |h| && h[k].Some? && NeedsNoWrite(h[k].value.content, computed)
  }

  /** The position the last call was about. */
  function LastAt(log: seq<Event>): nat
    requires log != []
  {
    match log[|log| - 1]
    case Read(k) => k
    case Wrote(k) => k
    case Conflicted(_, current) => current
  }

  /** The step's last call, no earlier than the horizon, wrote the computed status, or read it where it was
      stored already. A saved write does not hold the observed generation back when generationEqual is
      false; a write does. */
  predicate StoredBy(log: seq<Event>, h: History, horizon: nat, computed: AggrStatus, generationEqual: bool) {
    && log != [] && horizon <= LastAt(log)
    && match log[|log| - 1] {
         case Wrote(k) => Written(h, k, computed, generationEqual)
         case Read(k) => Found(h, k, computed)
         case Conflicted(_, _) => false
       }
  }

  /** In the fields: a state since the horizon carries the computed status, with its generation observed or,
      when a write held it back, the generation before it. */
  lemma StoredShows(log: seq<Event>, h: History, horizon: nat, computed: AggrStatus, generationEqual: bool)
    requires StoredBy(log, h, horizon, computed, generationEqual)
    ensures horizon <= LastAt(log) < |h| && h[LastAt(log)].Some?
    ensures var c := h[LastAt(log)].value.content;
      && c.aggr == computed
      && (c.observedGeneration == c.generation
          || (log[|log| - 1].Wrote? && !generationEqual && c.observedGeneration == Wrap64(c.generation - 1)))
  {
  }

  /** What a run has applied is the spec of an earlier read, of the generation `applied`. The observed
      generation it then stores is one whose spec it never applied exactly when the object's generation had
      moved on from `applied` by the time of its last call (by two when the write holds one back). */
  lemma AheadOfAppliedIff(log: seq<Event>, h: History, horizon: nat, computed: AggrStatus, generationEqual: bool,
                          applied: int64)
    requires StoredBy(log, h, horizon, computed, generationEqual)
    requires h[LastAt(log)].value.content.generation > 0
    ensures var c := h[LastAt(log)].value.content;
      c.observedGeneration > applied <==>
        c.generation > applied + if log[|log| - 1].Wrote? && !generationEqual then 1 else 0
  {
  }

  /** obj is the object the step last read. */
  ghost predicate LastRead(log: seq<Event>, h: History, obj: Stored) {
    && obj.version < |h| && h[obj.version] == Some(obj)
    && log != [] && log[|log| - 1] == Read(obj.version)
  }

  /** The state an unhindered write leaves on top of obj. */
  function Updated(obj: Stored, computed: AggrStatus, generationEqual: bool): Stored {
    var c := obj.content;
    Stored(obj.version + 1, Content(c.spec, c.generation, ObservedFor(c.generation, generationEqual), computed))
  }

  /** Some state since the horizon is "gone". */
  ghost predicate GoneSince(h: History, horizon: nat) { exists k :: horizon <= k < |h| && h[k].None? }

  /** The last thing read shows the status stored, with its generation observed. */
  ghost predicate LastReadShows(log: seq<Event>, h: History, computed: AggrStatus) {
    && log != [] && log[|log| - 1].Read?
    && var k := log[|log| - 1].version;
    && k < |h| && h[k].Some? && h[k].value.content.aggr == computed
    && h[k].value.content.observedGeneration == h[k].value.content.generation
  }

  /** One call of the closure handed to RetryOnConflict. */
  method Attempt(server: ApiServer, obj: Stored, computed: AggrStatus, generationEqual: bool,
                 updateSlot: Slot, getSlot: Slot, horizon: nat) returns (next: Stored, reply: Reply)
    requires server.Valid() && horizon < |server.history|
    requires LastRead(server.log, server.history, obj)
    modifies server
    ensures server.Valid() && old(server.history) <= server.history && old(server.log) <= server.log
    ensures reply == Ok ==> StoredBy(server.log, server.history, horizon, computed, generationEqual)
    ensures reply == NotFound ==> GoneSince(server.history, horizon)
    ensures reply == OtherError ==> updateSlot.fault != NoFault || getSlot.fault != NoFault
    ensures reply != Ok && !old(LastReadShows(server.log, server.history, computed)) ==>
              !LastReadShows(server.log, server.history, computed)
    ensures reply == Conflict ==>
              && LastRead(server.log, server.history, next)
              && |server.log| == |old(server.log)| + 2 && server.log[|old(server.log)|].Conflicted?
              && server.log[|old(server.log)|].base == obj.version != server.log[|old(server.log)|].current
    ensures forall p :: |old(server.log)| < p < |server.log| ==> server.log[p].Read?
    ensures |server.log| > |old(server.log)| && server.log[|old(server.log)|].Wrote? ==>
              reply != Conflict && WroteOn(server.log[|old(server.log)|], obj.version, server.history)
    ensures updateSlot == Slot([], NoFault, 0) && old(server.Current()) == Some(obj) ==>
              reply == Ok && server.history == old(server.history) + [Some(Updated(obj, computed, generationEqual))]
  {
    var c := obj.content;
    var update := Stored(obj.version,
        Content(c.spec, c.generation, ObservedFor(c.generation, generationEqual), computed));
    reply := server.StatusUpdate(update, updateSlot);
    if reply == Ok {
      return obj, Ok;
    }
    var updateErr := reply;
    next, reply := server.Get(getSlot, horizon);
    if reply != Ok { return next, reply; }
    if NeedsNoWrite(next.content, computed) {
      return next, Ok;
    }
    reply := updateErr;
  }

  /** A refused attempt: based on the version just read, while another was stored. */
  predicate Refused(log: seq<Event>, p: nat) {
    p + 1 < |log| && log[p].Read? && log[p + 1].Conflicted? && log[p + 1].base == log[p].version != log[p + 1].current
  }

  predicate FirstRefused(log: seq<Event>, tries: nat) {
    |log| == 2 * tries + 1 && forall t :: 0 <= t < tries ==> Refused(log, 2 * t)
  }

  lemma RefusedAgain(before: seq<Event>, after: seq<Event>, tries: nat)
    requires FirstRefused(before, tries) && before <= after && |after| == |before| + 2
    requires Refused(after, |before| - 1)
    ensures FirstRefused(after, tries + 1)
  {
    forall t | 0 <= t < tries + 1 ensures Refused(after, 2 * t) {
      if t < tries { assert Refused(before, 2 * t); }
    }
  }

  ghost predicate Quiet(slots: nat -> Slot) { forall n :: slots(n) == Slot([], NoFault, 0) }

  /** All that can keep the step from storing the status: five refusals, a fault, or a deleted object. */
  ghost predicate Hindered(log: seq<Event>, h: History, slots: nat -> Slot, horizon: nat) {
    || (|log| == 11 && forall t :: 0 <= t < 5 ==> Refused(log, 2 * t))
    || (exists n :: n <= 10 && slots(n).fault != NoFault)
    || GoneSince(h, horizon)
  }

  /** An attempt adds at most one write, first, to a log without any. */
  lemma OneWriteAfter(before: seq<Event>, log: seq<Event>, h: History, v: nat)
    requires NoWrites(before) && before <= log && before != [] && before[|before| - 1] == Read(v)
    requires forall p :: |before| < p < |log| ==> log[p].Read?
    requires |log| > |before| && log[|before|].Wrote? ==> WroteOn(log[|before|], v, h)
    ensures WritesOnLastRead(log, h) && AtMostOneWrite(log)
  {
    assert forall p :: 0 <= p < |before| ==> log[p] == before[p];
  }

  lemma HinderedAt(log: seq<Event>, h: History, slots: nat -> Slot, horizon: nat, n: nat, reply: Reply)
    requires n < 10 && (reply == OtherError ==> slots(n).fault != NoFault || slots(n + 1).fault != NoFault)
    requires (reply == NotFound ==> GoneSince(h, horizon)) && reply in {NotFound, OtherError}
    ensures Hindered(log, h, slots, horizon)
  {
  }

  /** What an undisturbed step leaves of the history: the computed status on top, or nothing new when it was
      stored already with its generation observed. */
  ghost predicate StoredQuietly(before: History, after: History, computed: AggrStatus, generationEqual: bool) {
    && before != [] && before[|before| - 1].Some?
    && var obj := before[|before| - 1].value;
    var c := obj.content;
    if c.observedGeneration == c.generation && c.aggr == computed then after == before
    else
      var observed := if generationEqual then c.generation else Wrap64(c.generation - 1);
      after == before + [Some(Stored(obj.version + 1, Content(c.spec, c.generation, observed, computed)))]
  }

  /** The attempts: up to five, repeated on conflicts only. slots(2 * t + 1) and slots(2 * t + 2) are what
      the write and the read of attempt t meet. */
  method RetryOnConflict(server: ApiServer, obj: Stored, computed: AggrStatus, generationEqual: bool,
                         slots: nat -> Slot, horizon: nat)
    returns (reply: Reply)
    requires server.Valid() && horizon < |server.history|
    requires LastRead(server.log, server.history, obj) && |server.log| == 1
    modifies server
    ensures server.Valid() && old(server.history) <= server.history
    ensures reply == Ok ==> StoredBy(server.log, server.history, horizon, computed, generationEqual)
    ensures WritesOnLastRead(server.log, server.history) && AtMostOneWrite(server.log)
    ensures reply == Conflict ==> NoWrites(server.log) && FirstRefused(server.log, 5)
    ensures reply != Ok ==> Hindered(server.log, server.history, slots, horizon)
    ensures reply != Ok && !old(LastReadShows(server.log, server.history, computed)) ==>
              !LastReadShows(server.log, server.history, computed)
    ensures slots(1) == Slot([], NoFault, 0) && old(server.Current()) == Some(obj) ==>
              reply == Ok && server.history == old(server.history) + [Some(Updated(obj, computed, generationEqual))]
  {
    ghost var quiet := slots(1) == Slot([], NoFault, 0) && server.Current() == Some(obj);
    ghost var shown := LastReadShows(server.log, server.history, computed);
    var current := obj;
    reply := Conflict;
    var tries := 0;
    while tries < STEPS
      invariant tries <= STEPS && server.Valid() && old(server.history) <= server.history
      invariant LastRead(server.log, server.history, current)
      invariant NoWrites(server.log) && FirstRefused(server.log, tries)
      invariant reply == Conflict
      invariant !shown ==> !LastReadShows(server.log, server.history, computed)
      invariant tries == 0 ==> current == obj && server.history == old(server.history)
      invariant quiet ==> tries == 0
    {
      ghost var before, base := server.log, current.version;
      var updateSlot, getSlot := slots(2 * tries + 1), slots(2 * tries + 2);
      current, reply := Attempt(server, current, computed, generationEqual, updateSlot, getSlot, horizon);
      if reply != Conflict {
        OneWriteAfter(before, server.log, server.history, base);
        if reply != Ok { HinderedAt(server.log, server.history, slots, horizon, 2 * tries + 1, reply); }
        return;
      }
      RefusedAgain(before, server.log, tries);
      tries := tries + 1;
    }
  }

  /** The body of the step, for any interference: slots(n) is what its n-th API call meets, and no read
      is older than `horizon`. Success means that the last call wrote the computed status, or found it stored,
      at a state since then, with the observed generation that goes with it; there is at most one write, it
      lands on the version last read and leaves the spec alone; a conflict is returned only after five
      refusals, having written nothing; it fails only when hindered by five refusals, a fault or a deletion, and
      never when the last thing it read shows the status stored; and without interference it succeeds and
      stores exactly the computed status, or nothing when it is stored already. */
  method WriteStatus(server: ApiServer, computed: AggrStatus, generationEqual: bool, slots: nat -> Slot, horizon: nat)
    returns (reply: Reply)
    requires server.Valid() && server.log == [] && horizon < |server.history|
    modifies server
    ensures server.Valid() && old(server.history) <= server.history
    ensures reply == Ok ==> StoredBy(server.log, server.history, horizon, computed, generationEqual)
    ensures WritesOnLastRead(server.log, server.history) && AtMostOneWrite(server.log)
    ensures reply == Conflict ==> NoWrites(server.log) && FirstRefused(server.log, 5)
    ensures reply != Ok ==> Hindered(server.log, server.history, slots, horizon)
    ensures LastReadShows(server.log, server.history, computed) ==> reply == Ok
    ensures Quiet(slots) && old(server.Current()).Some? ==>
              reply == Ok && StoredQuietly(old(server.history), server.history, computed, generationEqual)
  {
    var obj;
    obj, reply := server.Get(slots(0), horizon);
    if reply != Ok { return; }
    if NeedsNoWrite(obj.content, computed) { return; }
    reply := RetryOnConflict(server, obj, computed, generationEqual, slots, horizon);
  }

  /** The context after a failure: stop, and requeue later. */
  function Stopping(slots: seq<Option<Value>>): seq<Option<Value>>
    requires |slots| == KEY_END
  {
    slots[STEP_STOP := Some(BoolValue(true))][REQUEUE_AFTER := Some(DurationValue(FIVE_SECONDS))]
  }

  /** The step around it. A missing status is returned as an error without setting the stop flag, since
      the deferred function looks at `err`; every other failure sets it. */
  method StepUpdateStatus(ctx: WrapperCtx, server: ApiServer, slots: nat -> Slot, horizon: nat) returns (failed: bool)
    requires ctx.Valid() && server.Valid() && server.log == [] && horizon < |server.history|
    modifies ctx.builtin, server
    ensures ctx.Valid() && ctx.builtin == old(ctx.builtin) && server.Valid() && old(server.history) <= server.history
    ensures WritesOnLastRead(server.log, server.history) && AtMostOneWrite(server.log)
    ensures var v := old(ctx.Get(AGGR_STATUS));
      if v.Some? && v.value.AggrStatusValue? then
        var generationEqual := AsBool(old(ctx.Get(GENERATION_EQUAL)));
        && (!failed ==> StoredBy(server.log, server.history, horizon, v.value.aggr, generationEqual))
        && (failed ==> Hindered(server.log, server.history, slots, horizon))
        && (Quiet(slots) && old(server.Current()).Some? ==>
            !failed && StoredQuietly(old(server.history), server.history, v.value.aggr, generationEqual))
        && ctx.builtin[..] == if failed then Stopping(old(ctx.builtin[..])) else old(ctx.builtin[..])
      else
        failed && server.log == [] && server.history == old(server.history) && ctx.builtin[..] == old(ctx.builtin[..])
  {
    var v := ctx.Get(AGGR_STATUS);
    if v.None? || !v.value.AggrStatusValue? { return true; }
    var generationEqual := AsBool(ctx.Get(GENERATION_EQUAL));
    var reply := WriteStatus(server, v.value.aggr, generationEqual, slots, horizon);
    failed := reply != Ok;
    if failed {
      var _ := WithValue(ctx, STEP_STOP, BoolValue(true));
      var _ := WithValue(ctx, REQUEUE_AFTER, DurationValue(FIVE_SECONDS));
    }
  }

  /** It happens: the run reads generation 1, a user edits the spec, and the undisturbed status write marks
      generation 2 observed, with a status computed from what generation 1 asked for. */
  method EditIsMarkedObserved(before: AggrStatus, computed: AggrStatus) returns (server: ApiServer, read: Stored)
    requires before != computed
    ensures server.Valid() && read.content == Content(0, 1, 0, before)
    ensures server.Current() == Some(Stored(2, Content(1, 2, 2, computed)))
  {
    server := new ApiServer(Content(0, 1, 0, before));
    var reply;
    read, reply := server.Fetch(Slot([], NoFault, 0), 0);
    var edit := [Some(Content(1, 2, 0, before))];
    server.OthersWrite(edit);
    assert server.history[1 + 0] == StateOf(1, edit[0]);
    var slots: nat -> Slot := _ => Slot([], NoFault, 0);
    reply := WriteStatus(server, computed, true, slots, 1);
  }
}
