/** The goroutine fan-out of the master controller: one worker per cluster, a WaitGroup, an
    unbuffered error channel drained by a collector, and (for `getAllClusterComplexAdvdeployment`)
    a second unbuffered channel with its own collector outside the fan-out.

    Every goroutine is a program counter; a step moves one goroutine, or two of them at a
    rendezvous. A Go panic (send on or close of a closed channel, negative WaitGroup) is a state. */
module FanOut {
  import opened Prelude

  /** What one handler call does: optionally hand over an item, then return (changed, err). */
  datatype Outcome<+I> = Outcome(item: Option<I>, changed: bool, err: Option<string>)

  /** EachCluster keeps going after an error; SpecifiedCluster returns right after sending it. */
  datatype Variant = EachCluster | SpecifiedCluster

  /** nested: the handler reports through a second channel owned by the caller of the fan-out. */
  datatype Config<+I> = Config(outs: seq<Outcome<I>>, variant: Variant, nested: bool)

  datatype WorkerPc = Unborn | InHandler | SendItem | HandlerDone | SendErr | AddChanged | Deferred | Gone

  datatype MainPc =
    | Spawning(next: nat, added: bool)
    | Waiting | CloseErrs | AwaitErrs | CloseItems | AwaitItems | Returned

  /** A channel together with the goroutine ranging over it and its `done` channel. The value that
      worker i hands over is fixed by its outcome, so `got` lists who was received from, in order. */
  datatype Collector = Collector(got: seq<nat>, closed: bool, done: bool)

  datatype State = State(
    main: MainPc,
    ws: seq<WorkerPc>,
    wg: nat,
    changed: int32,
    errs: Collector,
    items: Collector,
    panicked: bool)

  datatype Step = Main | Worker(i: nat) | PassErr(i: nat) | PassItem(i: nat) | ErrsExit | ItemsExit

  function Init<I>(c: Config<I>): State {
    State(Spawning(0, false), seq(|c.outs|, _ => Unborn), 0, 0,
          Collector([], false, false), Collector([], false, false), false)
  }

  /** Whether this handler's change reaches the atomic counter. */
  predicate Counts<I>(c: Config<I>, o: Outcome<I>) {
    o.changed && (c.variant.EachCluster? || o.err.None?)
  }

  /** The worker body after the handler, and after an error was sent. */
  function AfterErr<I>(c: Config<I>, o: Outcome<I>): WorkerPc {
    if Counts(c, o) then AddChanged else Deferred
  }

  function AfterHandler<I>(c: Config<I>, o: Outcome<I>): WorkerPc {
    if o.err.Some? then SendErr else AfterErr(c, o)
  }

  function MainStep<I>(c: Config<I>, s: State): Option<State>
    requires |s.ws| == |c.outs|
  {
    match s.main
    case Spawning(i, false) =>
      if i < |c.outs| then Some(s.(main := Spawning(i, true), wg := s.wg + 1)) else Some(s.(main := Waiting))
    case Spawning(i, true) =>
      if i < |c.outs| then Some(s.(main := Spawning(i + 1, false), ws := s.ws[i := InHandler])) else None
    case Waiting => if s.wg == 0 then Some(s.(main := CloseErrs)) else None
    case CloseErrs =>
      if s.errs.closed then Some(s.(panicked := true))
      else Some(s.(main := AwaitErrs, errs := s.errs.(closed := true)))
    case AwaitErrs =>
      if s.errs.done then Some(s.(main := if c.nested then CloseItems else Returned)) else None
    case CloseItems =>
      if s.items.closed then Some(s.(panicked := true))
      else Some(s.(main := AwaitItems, items := s.items.(closed := true)))
    case AwaitItems => if s.items.done then Some(s.(main := Returned)) else None
    case Returned => None
  }

  function WorkerStep<I>(c: Config<I>, s: State, i: nat): Option<State>
    requires i < |s.ws| == |c.outs|
  {
    var o := c.outs[i];
    match s.ws[i]
    case Unborn => None
    case InHandler =>
      Some(s.(ws := s.ws[i := if c.nested && o.item.Some? then SendItem else HandlerDone]))
    case SendItem => if s.items.closed then Some(s.(panicked := true)) else None
    case HandlerDone => Some(s.(ws := s.ws[i := AfterHandler(c, o)]))
    case SendErr => if s.errs.closed then Some(s.(panicked := true)) else None
    case AddChanged => Some(s.(ws := s.ws[i := Deferred], changed := Wrap32(s.changed + 1)))
    case Deferred =>
      if s.wg == 0 then Some(s.(panicked := true)) else Some(s.(ws := s.ws[i := Gone], wg := s.wg - 1))
    case Gone => None
  }

  /** The state after a step, or None when the step cannot be taken. */
  function Apply<I>(c: Config<I>, s: State, step: Step): Option<State> {
    if s.panicked || |s.ws| != |c.outs| then None
    else
      match step
      case Main => MainStep(c, s)
      case Worker(i) => if i < |s.ws| then WorkerStep(c, s, i) else None
      case PassErr(i) =>
        if i < |s.ws| && s.ws[i] == SendErr && !s.errs.closed && !s.errs.done then
          Some(s.(ws := s.ws[i := AfterErr(c, c.outs[i])], errs := s.errs.(got := s.errs.got + [i])))
        else None
      case PassItem(i) =>
        if i < |s.ws| && s.ws[i] == SendItem && !s.items.closed && !s.items.done then
          Some(s.(ws := s.ws[i := HandlerDone], items := s.items.(got := s.items.got + [i])))
        else None
      case ErrsExit =>
        if s.errs.closed && !s.errs.done then Some(s.(errs := s.errs.(done := true))) else None
      case ItemsExit =>
        if s.items.closed && !s.items.done then Some(s.(items := s.items.(done := true))) else None
  }

  ghost predicate Next<I(!new)>(c: Config<I>, s: State, s': State) {
    exists step :: Apply(c, s, step) == Some(s')
  }

  ghost predicate IsRun<I(!new)>(c: Config<I>, run: seq<State>) {
    && |run| > 0
    && run[0] == Init(c)
    && forall i :: 0 < i < |run| ==> Next(c, run[i - 1], run[i])
  }

  ghost predicate Reachable<I(!new)>(c: Config<I>, s: State) {
    exists run :: IsRun(c, run) && run[|run| - 1] == s
  }

  // ---------------------------------------------------------------- the books

  /** Steps a worker still has before it; at the later ones it has handed over what it had. */
  function Work(pc: WorkerPc): nat {
    match pc
    case Unborn => 7 case InHandler => 6 case SendItem => 5 case HandlerDone => 4
    case SendErr => 3 case AddChanged => 2 case Deferred => 1 case Gone => 0
  }

  predicate Live(pc: WorkerPc) { pc != Unborn && pc != Gone }

  /** Whether the worker's change is in the counter. */
  predicate Counted<I>(c: Config<I>, o: Outcome<I>, pc: WorkerPc) { Counts(c, o) && Work(pc) <= 1 }

  function LiveCount(ws: seq<WorkerPc>, k: nat): nat
    requires k <= |ws|
  {
    if k == 0 then 0 else LiveCount(ws, k - 1) + if Live(ws[k - 1]) then 1 else 0
  }

  function CountedCount<I>(c: Config<I>, ws: seq<WorkerPc>, k: nat): nat
    requires k <= |ws| == |c.outs|
  {
    if k == 0 then 0 else CountedCount(c, ws, k - 1) + if Counted(c, c.outs[k - 1], ws[k - 1]) then 1 else 0
  }

  function WorkLeft(ws: seq<WorkerPc>, k: nat): nat
    requires k <= |ws|
  {
    if k == 0 then 0 else WorkLeft(ws, k - 1) + Work(ws[k - 1])
  }

  /** Moving one worker moves each sum by exactly that worker's part. */
  lemma {:induction false} SumsUpdate<I>(c: Config<I>, ws: seq<WorkerPc>, k: nat, i: nat, pc: WorkerPc)
    requires k <= |ws| == |c.outs| && i < |ws|
    ensures var hit := i < k;
      && LiveCount(ws[i := pc], k) + (if hit && Live(ws[i]) then 1 else 0)
         == LiveCount(ws, k) + (if hit && Live(pc) then 1 else 0)
      && CountedCount(c, ws[i := pc], k) + (if hit && Counted(c, c.outs[i], ws[i]) then 1 else 0)
         == CountedCount(c, ws, k) + (if hit && Counted(c, c.outs[i], pc) then 1 else 0)
      && WorkLeft(ws[i := pc], k) + (if hit then Work(ws[i]) else 0)
         == WorkLeft(ws, k) + (if hit then Work(pc) else 0)
  {
    if k == 0 {
    } else {
      SumsUpdate(c, ws, k - 1, i, pc);
    }
  }

  lemma {:induction false} SumsUnborn<I>(c: Config<I>, ws: seq<WorkerPc>, k: nat)
    requires k <= |ws| == |c.outs|
    requires forall j :: 0 <= j < k ==> ws[j] == Unborn
    ensures LiveCount(ws, k) == 0 && CountedCount(c, ws, k) == 0 && WorkLeft(ws, k) == 7 * k
  {
    if k == 0 {
    } else {
      SumsUnborn(c, ws, k - 1);
    }
  }

  lemma {:induction false} LivePositive(ws: seq<WorkerPc>, k: nat, i: nat)
    requires i < k <= |ws| && Live(ws[i])
    ensures LiveCount(ws, k) > 0
  {
    if i == k - 1 {
    } else {
      LivePositive(ws, k - 1, i);
    }
  }

  // ---------------------------------------------------------------- the invariant

  predicate ErrsClosedAt(m: MainPc) { m.AwaitErrs? || m.CloseItems? || m.AwaitItems? || m.Returned? }

  predicate WorkerOk<I>(c: Config<I>, o: Outcome<I>, pc: WorkerPc) {
    && (pc == SendErr ==> o.err.Some?)
    && (pc == SendItem ==> c.nested && o.item.Some?)
    && (pc == AddChanged ==> Counts(c, o))
  }

  /** Where main is decides what the workers and the two collectors can be doing. */
  ghost predicate ControlInv<I>(c: Config<I>, s: State) {
    && |s.ws| == |c.outs| && !s.panicked
    && (forall i :: 0 <= i < |s.ws| ==> WorkerOk(c, c.outs[i], s.ws[i]))
    && (s.main.Spawning? ==>
          && s.main.next <= |s.ws|
          && (s.main.added ==> s.main.next < |s.ws|)
          && forall i :: 0 <= i < |s.ws| ==> (s.ws[i] == Unborn <==> i >= s.main.next))
    && (!s.main.Spawning? ==> forall i :: 0 <= i < |s.ws| ==> s.ws[i] != Unborn)
    && (!s.main.Spawning? && !s.main.Waiting? ==> forall i :: 0 <= i < |s.ws| ==> s.ws[i] == Gone)
    && s.errs.closed == ErrsClosedAt(s.main)
    && (s.errs.done ==> s.errs.closed)
    && (s.main.CloseItems? || s.main.AwaitItems? || s.main.Returned? ==> s.errs.done)
    && s.items.closed == (s.main.AwaitItems? || (s.main.Returned? && c.nested))
    && (s.items.done ==> s.items.closed)
    && (s.main.Returned? && c.nested ==> s.items.done)
    && (s.main.CloseItems? || s.main.AwaitItems? ==> c.nested)
  }

  /** Each receive is from a different worker, and exactly those past their send were received from. */
  ghost predicate Received(got: seq<nat>, senders: set<nat>) {
    && (forall i :: i in got <==> i in senders)
    && Distinct(got)
  }

  lemma ReceivedSnoc(got: seq<nat>, senders: set<nat>, i: nat)
    requires Received(got, senders) && i !in senders
    ensures Received(got + [i], senders + {i})
  {
  }

  ghost function ErrSenders<I>(c: Config<I>, ws: seq<WorkerPc>): set<nat>
    requires |ws| == |c.outs|
  {
    set i: nat | i < |ws| && c.outs[i].err.Some? && Work(ws[i]) <= 2
  }

  ghost function ItemSenders<I>(c: Config<I>, ws: seq<WorkerPc>): set<nat>
    requires |ws| == |c.outs|
  {
    set i: nat | i < |ws| && c.nested && c.outs[i].item.Some? && Work(ws[i]) <= 4
  }

  /** Nothing is lost or invented: the received lists, the WaitGroup and the counter are the books. */
  ghost predicate BooksInv<I>(c: Config<I>, s: State)
    requires |s.ws| == |c.outs|
  {
    && Received(s.errs.got, ErrSenders(c, s.ws))
    && Received(s.items.got, ItemSenders(c, s.ws))
    && s.changed == Wrap32(CountedCount(c, s.ws, |s.ws|))
    && s.wg == LiveCount(s.ws, |s.ws|) + if s.main.Spawning? && s.main.added then 1 else 0
  }

  ghost predicate Inv<I>(c: Config<I>, s: State) {
    ControlInv(c, s) && BooksInv(c, s)
  }

  lemma InitInv<I>(c: Config<I>)
    ensures Inv(c, Init(c))
  {
    SumsUnborn(c, Init(c).ws, |c.outs|);
  }

  lemma SpawningKeepsInv<I>(c: Config<I>, s: State, s': State)
    requires Inv(c, s) && s.main.Spawning? && !s.main.added && MainStep(c, s) == Some(s')
    ensures Inv(c, s')
  {
  }

  /** The WaitGroup has been raised; the worker starts. */
  lemma StartKeepsInv<I>(c: Config<I>, s: State, s': State)
    requires Inv(c, s) && s.main.Spawning? && s.main.added && MainStep(c, s) == Some(s')
    ensures Inv(c, s')
  {
    var i := s.main.next;
    assert s.ws[i] == Unborn && s'.ws == s.ws[i := InHandler];
    SumsUpdate(c, s.ws, |s.ws|, i, InHandler);
    StartSendsNothing(c, s.ws, i);
  }

  lemma StartSendsNothing<I>(c: Config<I>, ws: seq<WorkerPc>, i: nat)
    requires i < |ws| == |c.outs| && ws[i] == Unborn
    ensures ErrSenders(c, ws[i := InHandler]) == ErrSenders(c, ws)
    ensures ItemSenders(c, ws[i := InHandler]) == ItemSenders(c, ws)
  {
  }

  /** The wait is over: nobody is left to send. */
  lemma WaitingKeepsInv<I>(c: Config<I>, s: State, s': State)
    requires Inv(c, s) && s.main.Waiting? && MainStep(c, s) == Some(s')
    ensures Inv(c, s')
  {
    forall i | 0 <= i < |s.ws| ensures s.ws[i] == Gone {
      if s.ws[i] != Gone { LivePositive(s.ws, |s.ws|, i); }
    }
  }

  lemma ClosingKeepsInv<I>(c: Config<I>, s: State, s': State)
    requires Inv(c, s) && (s.main.CloseErrs? || s.main.CloseItems?) && MainStep(c, s) == Some(s')
    ensures Inv(c, s')
  {
  }

  lemma AwaitingKeepsInv<I>(c: Config<I>, s: State, s': State)
    requires Inv(c, s) && (s.main.AwaitErrs? || s.main.AwaitItems?) && MainStep(c, s) == Some(s')
    ensures Inv(c, s')
  {
  }

  lemma MainKeepsInv<I>(c: Config<I>, s: State, s': State)
    requires Inv(c, s) && MainStep(c, s) == Some(s')
    ensures Inv(c, s')
  {
    match s.main
    case Spawning(_, added) => if added { StartKeepsInv(c, s, s'); } else { SpawningKeepsInv(c, s, s'); }
    case Waiting => WaitingKeepsInv(c, s, s');
    case CloseErrs => ClosingKeepsInv(c, s, s');
    case CloseItems => ClosingKeepsInv(c, s, s');
    case AwaitErrs => AwaitingKeepsInv(c, s, s');
    case AwaitItems => AwaitingKeepsInv(c, s, s');
    case Returned =>
  }

  lemma WorkerKeepsControl<I>(c: Config<I>, s: State, s': State, step: Step, i: nat)
    requires ControlInv(c, s) && i < |s.ws|
    requires step == Worker(i) || step == PassErr(i) || step == PassItem(i)
    requires s.ws[i] == Deferred ==> s.wg > 0
    requires Apply(c, s, step) == Some(s')
    ensures ControlInv(c, s')
  {
    assert s'.ws == s.ws[i := s'.ws[i]];
  }

  lemma WorkerKeepsCounter<I>(c: Config<I>, s: State, s': State, step: Step, i: nat)
    requires i < |s.ws| == |c.outs| && WorkerOk(c, c.outs[i], s.ws[i])
    requires s.changed == Wrap32(CountedCount(c, s.ws, |s.ws|))
    requires step == Worker(i) || step == PassErr(i) || step == PassItem(i)
    requires Apply(c, s, step) == Some(s') && !s'.panicked
    ensures |s'.ws| == |s.ws| && s'.changed == Wrap32(CountedCount(c, s'.ws, |s.ws|))
  {
    var pc, counted := s'.ws[i], CountedCount(c, s.ws, |s.ws|);
    assert s'.ws == s.ws[i := pc];
    SumsUpdate(c, s.ws, |s.ws|, i, pc);
    if s.ws[i] == AddChanged {
      assert CountedCount(c, s'.ws, |s.ws|) == counted + 1;
      WrapAdd(counted, 1);
    } else {
      assert CountedCount(c, s'.ws, |s.ws|) == counted;
    }
  }

  lemma WorkerKeepsWaitGroup<I>(c: Config<I>, s: State, s': State, step: Step, i: nat)
    requires i < |s.ws| == |c.outs|
    requires s.wg == LiveCount(s.ws, |s.ws|) + if s.main.Spawning? && s.main.added then 1 else 0
    requires step == Worker(i) || step == PassErr(i) || step == PassItem(i)
    requires Apply(c, s, step) == Some(s') && !s'.panicked
    ensures |s'.ws| == |s.ws|
    ensures s'.wg == LiveCount(s'.ws, |s.ws|) + if s'.main.Spawning? && s'.main.added then 1 else 0
  {
    var pc := s'.ws[i];
    assert s'.ws == s.ws[i := pc];
    SumsUpdate(c, s.ws, |s.ws|, i, pc);
  }

  lemma WorkerKeepsReceived<I>(c: Config<I>, s: State, s': State, step: Step, i: nat)
    requires i < |s.ws| == |c.outs| && WorkerOk(c, c.outs[i], s.ws[i])
    requires Received(s.errs.got, ErrSenders(c, s.ws)) && Received(s.items.got, ItemSenders(c, s.ws))
    requires step == Worker(i) || step == PassErr(i) || step == PassItem(i)
    requires Apply(c, s, step) == Some(s') && !s'.panicked
    ensures |s'.ws| == |s.ws|
    ensures Received(s'.errs.got, ErrSenders(c, s'.ws))
    ensures Received(s'.items.got, ItemSenders(c, s'.ws))
  {
    assert s'.ws == s.ws[i := s'.ws[i]];
    assert ErrSenders(c, s'.ws) == ErrSenders(c, s.ws) + if step.PassErr? then {i} else {};
    assert ItemSenders(c, s'.ws) == ItemSenders(c, s.ws) + if step.PassItem? then {i} else {};
  }

  /** A worker step, alone or at a rendezvous, moves one worker's part and the matching book. */
  lemma WorkerKeepsInv<I>(c: Config<I>, s: State, s': State, step: Step, i: nat)
    requires Inv(c, s) && i < |s.ws|
    requires step == Worker(i) || step == PassErr(i) || step == PassItem(i)
    requires Apply(c, s, step) == Some(s')
    ensures Inv(c, s')
  {
    if s.ws[i] == Deferred { LivePositive(s.ws, |s.ws|, i); }
    WorkerKeepsControl(c, s, s', step, i);
    WorkerKeepsCounter(c, s, s', step, i);
    WorkerKeepsWaitGroup(c, s, s', step, i);
    WorkerKeepsReceived(c, s, s', step, i);
  }

  lemma StepKeepsInv<I>(c: Config<I>, s: State, s': State, step: Step)
    requires Inv(c, s) && Apply(c, s, step) == Some(s')
    ensures Inv(c, s')
  {
    match step
    case Main => MainKeepsInv(c, s, s');
    case Worker(i) => WorkerKeepsInv(c, s, s', step, i);
    case PassErr(i) => WorkerKeepsInv(c, s, s', step, i);
    case PassItem(i) => WorkerKeepsInv(c, s, s', step, i);
    case ErrsExit =>
    case ItemsExit =>
  }

  lemma {:induction false} RunInv<I(!new)>(c: Config<I>, run: seq<State>, i: nat)
    requires IsRun(c, run) && i < |run|
    ensures Inv(c, run[i])
  {
    if i == 0 {
      InitInv(c);
    } else {
      RunInv(c, run, i - 1);
      assert Next(c, run[i - 1], run[i]);
      var step :| Apply(c, run[i - 1], step) == Some(run[i]);
      StepKeepsInv(c, run[i - 1], run[i], step);
    }
  }

  // ---------------------------------------------------------------- safety

  /** In no interleaving does the process panic, no blocked sender ever faces a closed channel, and
      once main has returned both collectors are finished, so its reads are ordered after them. */
  lemma NoSendOnClosedChannel<I(!new)>(c: Config<I>, s: State)
    requires Reachable(c, s)
    ensures !s.panicked && |s.ws| == |c.outs|
    ensures forall i :: 0 <= i < |s.ws| ==> (s.ws[i] == SendErr ==> !s.errs.closed && !s.errs.done)
    ensures forall i :: 0 <= i < |s.ws| ==> (s.ws[i] == SendItem ==> !s.items.closed && !s.items.done)
    ensures s.main.CloseItems? || s.main.AwaitItems? || s.main.Returned? ==>
              s.errs.done && forall i :: 0 <= i < |s.ws| ==> s.ws[i] == Gone
    ensures s.main.Returned? && c.nested ==> s.items.done
  {
    var run :| IsRun(c, run) && run[|run| - 1] == s;
    RunInv(c, run, |run| - 1);
  }

  // ---------------------------------------------------------------- progress

  function MainRank<I>(c: Config<I>, m: MainPc): int {
    match m
    case Spawning(i, added) => 2 * (|c.outs| - i) + if added then 6 else 7
    case Waiting => 5 case CloseErrs => 4 case AwaitErrs => 3
    case CloseItems => 2 case AwaitItems => 1 case Returned => 0
  }

  function Measure<I>(c: Config<I>, s: State): int
    requires |s.ws| == |c.outs|
  {
    WorkLeft(s.ws, |s.ws|) + MainRank(c, s.main) + (if s.errs.done then 0 else 1) + (if s.items.done then 0 else 1)
  }

  lemma StepDecreasesMeasure<I>(c: Config<I>, s: State, s': State, step: Step)
    requires Inv(c, s) && Apply(c, s, step) == Some(s')
    ensures |s'.ws| == |c.outs| && 0 <= Measure(c, s') < Measure(c, s)
  {
    StepKeepsInv(c, s, s', step);
    match step
    case Main => if s.main.Spawning? && s.main.added { SumsUpdate(c, s.ws, |s.ws|, s.main.next, InHandler); }
    case ErrsExit =>
    case ItemsExit =>
    case Worker(i) => WorkerDecreasesMeasure(c, s, s', step, i);
    case PassErr(i) => WorkerDecreasesMeasure(c, s, s', step, i);
    case PassItem(i) => WorkerDecreasesMeasure(c, s, s', step, i);
  }

  lemma WorkerDecreasesMeasure<I>(c: Config<I>, s: State, s': State, step: Step, i: nat)
    requires ControlInv(c, s) && ControlInv(c, s') && i < |s.ws|
    requires step == Worker(i) || step == PassErr(i) || step == PassItem(i)
    requires Apply(c, s, step) == Some(s')
    ensures 0 <= Measure(c, s') < Measure(c, s)
  {
    var pc := s'.ws[i];
    assert s'.ws == s.ws[i := pc];
    assert Work(pc) < Work(s.ws[i]);
    SumsUpdate(c, s.ws, |s.ws|, i, pc);
  }

  lemma {:induction false} RunMeasure<I(!new)>(c: Config<I>, run: seq<State>, i: nat)
    requires IsRun(c, run) && i < |run|
    ensures |run[i].ws| == |c.outs| && 0 <= Measure(c, run[i]) <= 9 * |c.outs| + 9 - i
  {
    RunInv(c, run, i);
    if i == 0 {
      SumsUnborn(c, run[0].ws, |c.outs|);
    } else {
      RunMeasure(c, run, i - 1);
      RunInv(c, run, i - 1);
      assert Next(c, run[i - 1], run[i]);
      var step :| Apply(c, run[i - 1], step) == Some(run[i]);
      StepDecreasesMeasure(c, run[i - 1], run[i], step);
    }
  }

  /** Every schedule terminates: no run is longer than nine steps per cluster plus nine. */
  lemma RunsAreBounded<I(!new)>(c: Config<I>, run: seq<State>)
    requires IsRun(c, run)
    ensures |run| <= 9 * |c.outs| + 10
  {
    RunMeasure(c, run, |run| - 1);
  }

  /** No deadlock: until main has returned some goroutine can move. */
  lemma NoDeadlock<I(!new)>(c: Config<I>, s: State)
    requires Reachable(c, s) && !s.main.Returned?
    ensures exists s' :: Next(c, s, s')
  {
    var run :| IsRun(c, run) && run[|run| - 1] == s;
    RunInv(c, run, |run| - 1);
    var step := EnabledStep(c, s);
    assert Next(c, s, Apply(c, s, step).value);
  }

  lemma EnabledStep<I>(c: Config<I>, s: State) returns (step: Step)
    requires Inv(c, s) && !s.main.Returned?
    ensures Apply(c, s, step).Some?
  {
    step := Main;
    if s.main.Waiting? && s.wg > 0 {
      var i := LiveWitness(s.ws, |s.ws|);
      assert WorkerOk(c, c.outs[i], s.ws[i]);
      step := if s.ws[i] == SendErr then PassErr(i) else if s.ws[i] == SendItem then PassItem(i) else Worker(i);
    } else if s.main.AwaitErrs? && !s.errs.done {
      step := ErrsExit;
    } else if s.main.AwaitItems? && !s.items.done {
      step := ItemsExit;
    }
  }

  lemma {:induction false} LiveWitness(ws: seq<WorkerPc>, k: nat) returns (i: nat)
    requires k <= |ws| && LiveCount(ws, k) > 0
    ensures i < k && Live(ws[i])
  {
    if Live(ws[k - 1]) { i := k - 1; } else { i := LiveWitness(ws, k - 1); }
  }

  // ---------------------------------------------------------------- refinement

  /** What the caller gets: error texts, the items of the outer collector, the counter. */
  datatype Answer<+I> = Answer(errs: seq<string>, items: seq<I>, changed: int32)

  function OptSeq<T>(o: Option<T>): seq<T> {
    if o.Some? then [o.value] else []
  }

  /** The loop that calls the first k handlers one after the other, with the same int32 counter. */
  function Sequential<I>(c: Config<I>, k: nat): Answer<I>
    requires k <= |c.outs|
  {
    if k == 0 then Answer([], [], 0)
    else
      var a, o := Sequential(c, k - 1), c.outs[k - 1];
      Answer(a.errs + OptSeq(o.err),
             a.items + OptSeq(if c.nested then o.item else None),
             if Counts(c, o) then Wrap32(a.changed + 1) else a.changed)
  }

  /** The texts (the items) received in this order of senders. */
  ghost predicate TextsInOrder<I>(c: Config<I>, got: seq<nat>, texts: seq<string>) {
    |texts| == |got| && forall j :: 0 <= j < |got| ==> got[j] < |c.outs| && c.outs[got[j]].err == Some(texts[j])
  }

  ghost predicate ItemsInOrder<I>(c: Config<I>, got: seq<nat>, items: seq<I>) {
    |items| == |got| && forall j :: 0 <= j < |got| ==> got[j] < |c.outs| && c.outs[got[j]].item == Some(items[j])
  }

  /** Those of the first k workers that have an error (an item) to hand over. */
  ghost function WithError<I>(c: Config<I>, k: nat): set<nat>
    requires k <= |c.outs|
  {
    set i: nat | i < k && c.outs[i].err.Some?
  }

  ghost function WithItem<I>(c: Config<I>, k: nat): set<nat>
    requires k <= |c.outs|
  {
    set i: nat | i < k && c.nested && c.outs[i].item.Some?
  }

  lemma OneMoreWorker<I>(c: Config<I>, k: nat)
    requires k < |c.outs|
    ensures WithError(c, k + 1) == WithError(c, k) + if c.outs[k].err.Some? then {k} else {}
    ensures WithItem(c, k + 1) == WithItem(c, k) + if c.nested && c.outs[k].item.Some? then {k} else {}
  {
  }

  /** The workers the sequential loop gets an error from, in its order. */
  lemma {:induction false} SequentialErrs<I>(c: Config<I>, k: nat) returns (es: seq<nat>)
    requires k <= |c.outs|
    ensures Received(es, WithError(c, k)) && TextsInOrder(c, es, Sequential(c, k).errs)
  {
    if k == 0 {
      es := [];
    } else {
      es := SequentialErrs(c, k - 1);
      OneMoreWorker(c, k - 1);
      if c.outs[k - 1].err.Some? {
        ReceivedSnoc(es, WithError(c, k - 1), k - 1);
        es := es + [k - 1];
      }
    }
  }

  /** The workers the sequential loop gets an item from, in its order. */
  lemma {:induction false} SequentialItems<I>(c: Config<I>, k: nat) returns (xs: seq<nat>)
    requires k <= |c.outs|
    ensures Received(xs, WithItem(c, k)) && ItemsInOrder(c, xs, Sequential(c, k).items)
  {
    if k == 0 {
      xs := [];
    } else {
      xs := SequentialItems(c, k - 1);
      OneMoreWorker(c, k - 1);
      if c.nested && c.outs[k - 1].item.Some? {
        ReceivedSnoc(xs, WithItem(c, k - 1), k - 1);
        xs := xs + [k - 1];
      }
    }
  }

  lemma {:induction false} SequentialCounter<I>(c: Config<I>, ws: seq<WorkerPc>, k: nat)
    requires k <= |ws| == |c.outs| && forall i :: 0 <= i < k ==> ws[i] == Gone
    ensures Sequential(c, k).changed == Wrap32(CountedCount(c, ws, k))
  {
    if k == 0 {
    } else {
      SequentialCounter(c, ws, k - 1);
      WrapAdd(CountedCount(c, ws, k - 1), 1);
    }
  }

  /** When main has returned, the books are closed: everyone with an error (an item) was received from. */
  lemma BooksAtReturn<I(!new)>(c: Config<I>, s: State)
    requires Reachable(c, s) && s.main.Returned?
    ensures |s.ws| == |c.outs| && forall i :: 0 <= i < |s.ws| ==> s.ws[i] == Gone
    ensures Received(s.errs.got, WithError(c, |c.outs|)) && Received(s.items.got, WithItem(c, |c.outs|))
    ensures s.changed == Wrap32(CountedCount(c, s.ws, |s.ws|))
  {
    var run :| IsRun(c, run) && run[|run| - 1] == s;
    RunInv(c, run, |run| - 1);
    assert ErrSenders(c, s.ws) == WithError(c, |c.outs|) && ItemSenders(c, s.ws) == WithItem(c, |c.outs|);
  }

  /** In the outcomes themselves: once main has returned, exactly the handlers with an error have been received
      from on the error channel, each once, and in a nested fan-out exactly those with an item on the other. */
  lemma EveryoneIsHeardOnce<I(!new)>(c: Config<I>, s: State)
    requires Reachable(c, s) && s.main.Returned?
    ensures forall j, k :: 0 <= j < k < |s.errs.got| ==> s.errs.got[j] != s.errs.got[k]
    ensures forall i :: i in s.errs.got <==> 0 <= i < |c.outs| && c.outs[i].err.Some?
    ensures forall j, k :: 0 <= j < k < |s.items.got| ==> s.items.got[j] != s.items.got[k]
    ensures forall i :: i in s.items.got <==> 0 <= i < |c.outs| && c.nested && c.outs[i].item.Some?
  {
    BooksAtReturn(c, s);
    assert forall i :: i in s.errs.got <==> i in WithError(c, |c.outs|);
    assert forall i :: i in s.items.got <==> i in WithItem(c, |c.outs|);
  }

  /** The central result: whatever the interleaving, when main returns, the error list and the item
      list are permutations of the sequential loop's, and the counter is the same. */
  lemma FanOutRefinesSequentialLoop<I(!new)>(c: Config<I>, s: State, texts: seq<string>, items: seq<I>)
    requires Reachable(c, s) && s.main.Returned?
    requires TextsInOrder(c, s.errs.got, texts) && ItemsInOrder(c, s.items.got, items)
    ensures var a := Sequential(c, |c.outs|);
            multiset(texts) == multiset(a.errs) && multiset(items) == multiset(a.items) && s.changed == a.changed
  {
    BooksAtReturn(c, s);
    var es := SequentialErrs(c, |c.outs|);
    var xs := SequentialItems(c, |c.outs|);
    DistinctSameElements(s.errs.got, es);
    DistinctSameElements(s.items.got, xs);
    ImagesPermute(s.errs.got, es, texts, Sequential(c, |c.outs|).errs);
    ImagesPermute(s.items.got, xs, items, Sequential(c, |c.outs|).items);
    SequentialCounter(c, s.ws, |c.outs|);
  }

  /** Such lists exist: every sender received from did have a text (an item) to hand over. */
  lemma ReceivedListsExist<I(!new)>(c: Config<I>, s: State) returns (texts: seq<string>, items: seq<I>)
    requires Reachable(c, s)
    ensures TextsInOrder(c, s.errs.got, texts) && ItemsInOrder(c, s.items.got, items)
  {
    var run :| IsRun(c, run) && run[|run| - 1] == s;
    RunInv(c, run, |run| - 1);
    forall j | 0 <= j < |s.errs.got| ensures s.errs.got[j] in ErrSenders(c, s.ws) {
      assert s.errs.got[j] in s.errs.got;
    }
    forall j | 0 <= j < |s.items.got| ensures s.items.got[j] in ItemSenders(c, s.ws) {
      assert s.items.got[j] in s.items.got;
    }
    texts := seq(|s.errs.got|, j requires 0 <= j < |s.errs.got| => c.outs[s.errs.got[j]].err.value);
    items := seq(|s.items.got|, j requires 0 <= j < |s.items.got| => c.outs[s.items.got[j]].item.value);
  }

  // ---------------------------------------------------------------- the isChanged answer

  /** How many of the first k handlers report a change that counts. */
  function Changes<I>(c: Config<I>, k: nat): nat
    requires k <= |c.outs|
  {
    if k == 0 then 0 else Changes(c, k - 1) + if Counts(c, c.outs[k - 1]) then 1 else 0
  }

  lemma {:induction false} ChangesBounds<I>(c: Config<I>, k: nat)
    requires k <= |c.outs|
    ensures Sequential(c, k).changed == Wrap32(Changes(c, k))
    ensures Changes(c, k) <= k
    ensures Changes(c, k) > 0 <==> exists i :: 0 <= i < k && Counts(c, c.outs[i])
    ensures (forall i :: 0 <= i < k ==> Counts(c, c.outs[i])) ==> Changes(c, k) == k
  {
    if k == 0 {
    } else {
      ChangesBounds(c, k - 1);
      WrapAdd(Changes(c, k - 1), 1);
    }
  }

  /** `changed > 0` is answered from an int32 counter: it is true exactly when the number of counted
      changes, modulo 2^32, is between 1 and 2^31 - 1. */
  lemma IsChangedExactly<I(!new)>(c: Config<I>, s: State)
    requires Reachable(c, s) && s.main.Returned?
    ensures s.changed > 0 <==> 0 < Changes(c, |c.outs|) % TWO_32 < TWO_31
  {
    var texts, items := ReceivedListsExist(c, s);
    FanOutRefinesSequentialLoop(c, s, texts, items);
    ChangesBounds(c, |c.outs|);
    WrapPositive(Changes(c, |c.outs|));
  }

  lemma SmallAnswer(n: nat)
    requires n < TWO_31
    ensures 0 < n % TWO_32 < TWO_31 <==> n > 0
  {
  }

  lemma SomeCounts<I>(c: Config<I>)
    ensures (exists i :: 0 <= i < |c.outs| && Counts(c, c.outs[i])) <==>
            exists o :: o in c.outs && o.changed && (c.variant.SpecifiedCluster? ==> o.err.None?)
  {
    if i :| 0 <= i < |c.outs| && Counts(c, c.outs[i]) {
      assert c.outs[i] in c.outs;
    }
    if o :| o in c.outs && o.changed && (c.variant.SpecifiedCluster? ==> o.err.None?) {
      var i :| 0 <= i < |c.outs| && c.outs[i] == o;
      assert Counts(c, c.outs[i]);
    }
  }

  /** With fewer than 2^31 clusters the answer is what it is meant to be: for EachCluster, some
      handler reported a change; for SpecifiedCluster, some handler did so without an error. */
  lemma IsChangedIffSomeChange<I(!new)>(c: Config<I>, s: State)
    requires Reachable(c, s) && s.main.Returned? && |c.outs| < TWO_31
    ensures s.changed > 0 <==>
            exists o :: o in c.outs && o.changed && (c.variant.SpecifiedCluster? ==> o.err.None?)
  {
    IsChangedExactly(c, s);
    ChangesBounds(c, |c.outs|);
    SmallAnswer(Changes(c, |c.outs|));
    SomeCounts(c);
  }

  // ---------------------------------------------------------------- every order happens

  lemma Extend<I(!new)>(c: Config<I>, s: State, step: Step) returns (s': State)
    requires Reachable(c, s) && Apply(c, s, step).Some?
    ensures Some(s') == Apply(c, s, step) && Reachable(c, s')
  {
    s' := Apply(c, s, step).value;
    var run :| IsRun(c, run) && run[|run| - 1] == s;
    var longer := run + [s'];
    forall i | 0 < i < |longer| ensures Next(c, longer[i - 1], longer[i]) {
      if i < |run| { assert Next(c, run[i - 1], run[i]); }
    }
    assert IsRun(c, longer);
  }

  predicate Within(order: seq<nat>, n: nat) {
    forall j :: 0 <= j < |order| ==> order[j] < n
  }

  /** The members of `order` with an error (an item), in that order. */
  function ErrsOf<I>(c: Config<I>, order: seq<nat>): seq<nat>
    requires Within(order, |c.outs|)
  {
    if order == [] then []
    else
      var last := order[|order| - 1];
      ErrsOf(c, order[..|order| - 1]) + if c.outs[last].err.Some? then [last] else []
  }

  function ItemsOf<I>(c: Config<I>, order: seq<nat>): seq<nat>
    requires Within(order, |c.outs|)
  {
    if order == [] then []
    else
      var last := order[|order| - 1];
      ItemsOf(c, order[..|order| - 1]) + if c.nested && c.outs[last].item.Some? then [last] else []
  }

  /** Main waits, both collectors are receiving, and no panic has happened. */
  ghost predicate Open<I>(c: Config<I>, s: State) {
    && s.main.Waiting? && |s.ws| == |c.outs| && !s.panicked
    && !s.errs.closed && !s.errs.done && !s.items.closed && !s.items.done
  }

  /** Main waits, the workers in `served` are gone, the others have not yet begun their handler. */
  ghost predicate Serving<I>(c: Config<I>, s: State, served: seq<nat>) {
    && Open(c, s)
    && (forall i: nat :: i < |s.ws| ==> s.ws[i] == if i in served then Gone else InHandler)
    && s.wg + |served| == |c.outs|
  }

  lemma {:induction false} SpawnAll<I(!new)>(c: Config<I>, k: nat) returns (s: State)
    requires k <= |c.outs|
    ensures Reachable(c, s) && s.main == Spawning(k, false) && s.wg == k
    ensures s == Init(c).(main := s.main, wg := k, ws := s.ws) && |s.ws| == |c.outs|
    ensures forall i :: 0 <= i < |s.ws| ==> s.ws[i] == if i < k then InHandler else Unborn
  {
    if k == 0 {
      s := Init(c);
      assert IsRun(c, [s]);
    } else {
      s := SpawnAll(c, k - 1);
      s := Extend(c, s, Main);
      s := Extend(c, s, Main);
    }
  }

  /** The handler of one worker, which may hand over an item. */
  lemma HandleOne<I(!new)>(c: Config<I>, s: State, i: nat) returns (s': State)
    requires Reachable(c, s) && Open(c, s) && i < |s.ws| && s.ws[i] == InHandler
    ensures Reachable(c, s')
    ensures s' == s.(ws := s.ws[i := HandlerDone],
                     items := s.items.(got := s.items.got + if c.nested && c.outs[i].item.Some? then [i] else []))
  {
    s' := Extend(c, s, Worker(i));
    if c.nested && c.outs[i].item.Some? { s' := Extend(c, s', PassItem(i)); }
  }

  /** What a worker does after its handler. */
  lemma FinishOne<I(!new)>(c: Config<I>, s: State, i: nat) returns (s': State)
    requires Reachable(c, s) && Open(c, s) && i < |s.ws| && s.ws[i] == HandlerDone && s.wg > 0
    ensures Reachable(c, s')
    ensures s' == s.(ws := s.ws[i := Gone], wg := s.wg - 1, changed := s'.changed,
                     errs := s.errs.(got := s.errs.got + if c.outs[i].err.Some? then [i] else []))
  {
    s' := Extend(c, s, Worker(i));
    if c.outs[i].err.Some? { s' := Extend(c, s', PassErr(i)); }
    assert s'.ws == s.ws[i := AfterErr(c, c.outs[i])];
    if Counts(c, c.outs[i]) { s' := Extend(c, s', Worker(i)); }
    assert s'.ws == s.ws[i := Deferred];
    s' := Extend(c, s', Worker(i));
  }

  /** One worker runs alone from its handler to its end. */
  lemma ServeOne<I(!new)>(c: Config<I>, s: State, i: nat) returns (s': State)
    requires Reachable(c, s) && Open(c, s) && i < |s.ws| && s.ws[i] == InHandler && s.wg > 0
    ensures Reachable(c, s') && Open(c, s') && s'.ws == s.ws[i := Gone] && s'.wg == s.wg - 1
    ensures s'.errs == s.errs.(got := s.errs.got + if c.outs[i].err.Some? then [i] else [])
    ensures s'.items == s.items.(got := s.items.got + if c.nested && c.outs[i].item.Some? then [i] else [])
  {
    s' := HandleOne(c, s, i);
    s' := FinishOne(c, s', i);
    assert s'.ws == s.ws[i := Gone];
  }

  lemma ServingOneMore<I>(c: Config<I>, t: State, s: State, front: seq<nat>, last: nat)
    requires Serving(c, t, front) && Open(c, s) && last < |t.ws| && last !in front
    requires s.ws == t.ws[last := Gone] && s.wg == t.wg - 1
    ensures Serving(c, s, front + [last])
  {
    assert forall i :: i in front + [last] <==> i in front || i == last;
  }

  lemma {:induction false} ServeAll<I(!new)>(c: Config<I>, order: seq<nat>) returns (s: State)
    requires Distinct(order) && |order| <= |c.outs| && Within(order, |c.outs|)
    ensures Reachable(c, s) && Serving(c, s, order)
    ensures s.errs.got == ErrsOf(c, order) && s.items.got == ItemsOf(c, order)
  {
    if order == [] {
      s := SpawnAll(c, |c.outs|);
      s := Extend(c, s, Main);
    } else {
      var last, front := order[|order| - 1], order[..|order| - 1];
      var t := ServeAll(c, front);
      assert order == front + [last] && last !in front;
      s := ServeOne(c, t, last);
      ServingOneMore(c, t, s, front, last);
    }
  }

  /** Nothing narrower than "a permutation" can be said: for every order of the clusters some
      interleaving returns the errors and the items in exactly that order. */
  lemma EveryOrderHappens<I(!new)>(c: Config<I>, order: seq<nat>) returns (s: State)
    requires Distinct(order) && |order| == |c.outs| && Within(order, |c.outs|)
    ensures Reachable(c, s) && s.main.Returned?
    ensures s.errs.got == ErrsOf(c, order) && s.items.got == ItemsOf(c, order)
  {
    s := ServeAll(c, order);
    s := Extend(c, s, Main);
    s := Extend(c, s, Main);
    s := Extend(c, s, ErrsExit);
    s := Extend(c, s, Main);
    if c.nested {
      s := Extend(c, s, Main);
      s := Extend(c, s, ItemsExit);
      s := Extend(c, s, Main);
    }
  }

  /** So the bound on the number of clusters is needed: 2^31 clusters that all report a change can be, and
      always are, answered with "no change". */
  lemma IsChangedOverflows(c: Config<()>) returns (s: State)
    requires c == Config(seq(TWO_31, _ => Outcome(None, true, None)), EachCluster, false)
    ensures forall o :: o in c.outs ==> o.changed && o.err.None?
    ensures Reachable(c, s) && s.main.Returned? && s.changed <= 0
  {
    var order: seq<nat> := seq(TWO_31, i requires 0 <= i < TWO_31 => i);
    s := EveryOrderHappens(c, order);
    ChangesBounds(c, |c.outs|);
    IsChangedExactly(c, s);
  }
}
