/** The generated deep copies, on the heap: a Go pointer to a scalar is a Cell, a slice an array, a map
    a Table, a nil one null, and a struct behind a pointer an object holding the struct. A copy equals its
    original as a tree of values, everything it reaches is new, and it shares nothing within itself even
    where the original does. */
module DeepCopy {
  import opened Prelude

  class Cell<T> {
    var value: T

    constructor (v: T)
      ensures value == v
    {
      value := v;
    }
  }

  ghost predicate Apart(p: object?, others: set<object?>) { p == null || p !in others }

  /** Both nil, or pointers to the same value. */
  ghost predicate SameCell<T(!new)>(p: Cell?<T>, q: Cell?<T>)
    reads p, q
  {
    (p == null <==> q == null) && (p != null && q != null ==> p.value == q.value)
  }

  /** `*out = new(T); **out = **in` under the nil test. */
  method CopyCell<T>(p: Cell?<T>, ghost others: set<object?>) returns (q: Cell?<T>)
    ensures q == null <==> p == null
    ensures Apart(q, others)
    ensures q != null ==> fresh(q) && q.value == p.value
  {
    if p == null { return null; }
    q := new Cell(p.value);
  }

  // ---------------------------------------------------------------- PodSetStatusInfo

  /** The struct with its pointers; `*out = *in` copies this. */
  datatype InfoStruct = InfoStruct(
    name: string, desired: int32, available: int32, unavailable: int32, version: string, clusterName: string,
    haveDeploy: Cell?<bool>, ready: Cell?<int32>, update: Cell?<int32>, current: Cell?<int32>,
    running: Cell?<int32>, warnEvent: Cell?<int32>, endpointReady: Cell?<int32>)

  /** The struct as a tree of values. */
  datatype InfoValue = InfoValue(
    name: string, desired: int32, available: int32, unavailable: int32, version: string, clusterName: string,
    haveDeploy: Option<bool>, ready: Option<int32>, update: Option<int32>, current: Option<int32>,
    running: Option<int32>, warnEvent: Option<int32>, endpointReady: Option<int32>)

  ghost function InfoValueOf(s: InfoStruct): InfoValue
    reads s.haveDeploy, s.ready, s.update, s.current, s.running, s.warnEvent, s.endpointReady
  {
    InfoValue(s.name, s.desired, s.available, s.unavailable, s.version, s.clusterName,
              if s.haveDeploy == null then None else Some(s.haveDeploy.value),
              if s.ready == null then None else Some(s.ready.value),
              if s.update == null then None else Some(s.update.value),
              if s.current == null then None else Some(s.current.value),
              if s.running == null then None else Some(s.running.value),
              if s.warnEvent == null then None else Some(s.warnEvent.value),
              if s.endpointReady == null then None else Some(s.endpointReady.value))
  }

  ghost function InfoReach(s: InfoStruct): set<object?> {
    {s.haveDeploy as object?, s.ready, s.update, s.current, s.running, s.warnEvent, s.endpointReady} - {null}
  }

  /** No two of the seven pointers lead to the same place. */
  ghost predicate InfoUnshared(s: InfoStruct) {
    && Apart(s.ready, {s.haveDeploy as object?})
    && Apart(s.update, {s.haveDeploy as object?, s.ready})
    && Apart(s.current, {s.haveDeploy as object?, s.ready, s.update})
    && Apart(s.running, {s.haveDeploy as object?, s.ready, s.update, s.current})
    && Apart(s.warnEvent, {s.haveDeploy as object?, s.ready, s.update, s.current, s.running})
    && Apart(s.endpointReady, {s.haveDeploy as object?, s.ready, s.update, s.current, s.running, s.warnEvent})
  }

  method CopyInfo(s: InfoStruct) returns (t: InfoStruct)
    ensures InfoValueOf(t) == InfoValueOf(s)
    ensures InfoUnshared(t)
    ensures (t.haveDeploy == null || fresh(t.haveDeploy)) && (t.ready == null || fresh(t.ready))
    ensures (t.update == null || fresh(t.update)) && (t.current == null || fresh(t.current))
    ensures (t.running == null || fresh(t.running)) && (t.warnEvent == null || fresh(t.warnEvent))
    ensures (t.endpointReady == null || fresh(t.endpointReady))
  {
    var haveDeploy := CopyCell(s.haveDeploy, {});
    var ready := CopyCell(s.ready, {haveDeploy as object?});
    var update := CopyCell(s.update, {haveDeploy as object?, ready});
    var current := CopyCell(s.current, {haveDeploy as object?, ready, update});
    var running := CopyCell(s.running, {haveDeploy as object?, ready, update, current});
    var warnEvent := CopyCell(s.warnEvent, {haveDeploy as object?, ready, update, current, running});
    var endpointReady := CopyCell(s.endpointReady, {haveDeploy as object?, ready, update, current, running, warnEvent});
    t := s.(haveDeploy := haveDeploy, ready := ready, update := update, current := current,
            running := running, warnEvent := warnEvent, endpointReady := endpointReady);
  }

  class PodSetStatusInfo {
    var s: InfoStruct

    constructor ()
      ensures s == InfoStruct("", 0, 0, 0, "", "", null, null, null, null, null, null, null)
    {
      s := InfoStruct("", 0, 0, 0, "", "", null, null, null, null, null, null, null);
    }

    ghost function Reach(): set<object?>
      reads this
    {
      InfoReach(s)
    }

    ghost function Value(): InfoValue
      reads this, s.haveDeploy, s.ready, s.update, s.current, s.running, s.warnEvent, s.endpointReady
    {
      InfoValueOf(s)
    }

    method DeepCopyInto(out: PodSetStatusInfo)
      requires out != this
      modifies out
      ensures out.Value() == old(Value()) && InfoUnshared(out.s)
      ensures var t := out.s;
        && t == s.(haveDeploy := t.haveDeploy, ready := t.ready, update := t.update, current := t.current,
                   running := t.running, warnEvent := t.warnEvent, endpointReady := t.endpointReady)
        && SameCell(s.haveDeploy, t.haveDeploy) && SameCell(s.ready, t.ready) && SameCell(s.update, t.update)
        && SameCell(s.current, t.current) && SameCell(s.running, t.running) && SameCell(s.warnEvent, t.warnEvent)
        && SameCell(s.endpointReady, t.endpointReady)
      ensures fresh(out.Reach())
    {
      out.s := CopyInfo(s);
    }
  }

  // ---------------------------------------------------------------- slices of pod sets

  ghost function InfoAt(p: PodSetStatusInfo?): Option<InfoValue>
    reads p, if p == null then {} else p.Reach()
  {
    if p == null then None else Some(p.Value())
  }

  /** q points to the struct t, or to nothing, and so has the value v. */
  ghost predicate PointsTo(q: PodSetStatusInfo?, t: InfoStruct, v: Option<InfoValue>)
    reads q, t.haveDeploy, t.ready, t.update, t.current, t.running, t.warnEvent, t.endpointReady
  {
    if q == null then v == None else q.s == t && v == Some(InfoValueOf(t))
  }

  method CopyInfoPointer(p: PodSetStatusInfo?, ghost others: set<object?>)
    returns (q: PodSetStatusInfo?, ghost t: InfoStruct)
    ensures PointsTo(q, t, old(InfoAt(p)))
    ensures q != null ==> fresh(q) && fresh(InfoReach(t)) && InfoUnshared(t)
    ensures q != null ==> q !in others && InfoReach(t) !! others
  {
    t := InfoStruct("", 0, 0, 0, "", "", null, null, null, null, null, null, null);
    if p == null { return null, t; }
    q := new PodSetStatusInfo();
    p.DeepCopyInto(q);
    t := q.s;
  }

  /** The copies made so far share nothing, and `reached` covers them. */
  ghost predicate Separate(qs: seq<PodSetStatusInfo?>, ts: seq<InfoStruct>, reached: set<object?>) {
    && |qs| == |ts|
    && (forall i :: 0 <= i < |qs| && qs[i] != null ==>
        InfoUnshared(ts[i]) && qs[i] in reached && InfoReach(ts[i]) <= reached)
    && (forall i, j :: 0 <= i < j < |qs| && qs[i] != null && qs[j] != null ==>
        qs[i] != qs[j] && InfoReach(ts[i]) !! InfoReach(ts[j]))
  }

  lemma SeparateSnoc(qs: seq<PodSetStatusInfo?>, ts: seq<InfoStruct>, reached: set<object?>, q: PodSetStatusInfo?,
                     t: InfoStruct)
    requires Separate(qs, ts, reached)
    requires q != null ==> InfoUnshared(t) && q !in reached && InfoReach(t) !! reached
    ensures Separate(qs + [q], ts + [t], if q == null then reached else reached + {q} + InfoReach(t))
  {
  }

  method CopyInfoPointers(ps: seq<PodSetStatusInfo?>)
    returns (qs: seq<PodSetStatusInfo?>, ghost ts: seq<InfoStruct>, ghost reached: set<object?>)
    ensures |qs| == |ps| && Separate(qs, ts, reached) && fresh(reached)
    ensures forall i :: 0 <= i < |ps| ==> PointsTo(qs[i], ts[i], old(InfoAt(ps[i])))
  {
    qs, ts, reached := [], [], {};
    for i := 0 to |ps|
      invariant |qs| == i && Separate(qs, ts, reached) && fresh(reached)
      invariant forall j :: 0 <= j < i ==> PointsTo(qs[j], ts[j], old(InfoAt(ps[j])))
    {
      var q, t := CopyInfoPointer(ps[i], reached);
      SeparateSnoc(qs, ts, reached, q, t);
      if q != null { reached := reached + {q} + InfoReach(t); }
      qs, ts := qs + [q], ts + [t];
    }
  }

  ghost function Elements<T>(a: array?<T>): seq<T>
    reads a
  {
    if a == null then [] else a[..]
  }

  method CopyInfos(a: array?<PodSetStatusInfo?>)
    returns (b: array?<PodSetStatusInfo?>, ghost ts: seq<InfoStruct>, ghost reached: set<object?>)
    ensures (b == null <==> a == null) && (b != null ==> fresh(b))
    ensures |Elements(b)| == |Elements(a)| && Separate(Elements(b), ts, reached) && fresh(reached)
    ensures forall i :: 0 <= i < |Elements(a)| ==> PointsTo(Elements(b)[i], ts[i], old(InfoAt(Elements(a)[i])))
  {
    if a == null { return null, [], {}; }
    var qs;
    qs, ts, reached := CopyInfoPointers(a[..]);
    b := new PodSetStatusInfo?[|qs|](i requires 0 <= i < |qs| => qs[i]);
    assert Elements(b) == qs;
  }

  method CopyStrings(a: array?<string>) returns (b: array?<string>)
    ensures (b == null <==> a == null) && (b != null ==> fresh(b))
    ensures Elements(b) == Elements(a)
  {
    if a == null { return null; }
    b := new string[a.Length](i requires 0 <= i < a.Length reads a => a[i]);
    assert b[..] == a[..];
  }

  // ---------------------------------------------------------------- AdvDeploymentAggrStatus

  datatype AggrStruct = AggrStruct(
    owners: array?<string>, status: string, version: string, desired: int32, available: int32, unavailable: int32,
    podSets: array?<PodSetStatusInfo?>)

  class AggrStatus {
    var s: AggrStruct

    constructor (s: AggrStruct)
      ensures this.s == s
    {
      this.s := s;
    }

    /** ts are the structs of the copied pod sets, and everything they reach is in `reached`. */
    method DeepCopyInto(out: AggrStatus) returns (ghost ts: seq<InfoStruct>, ghost reached: set<object?>)
      requires out != this
      modifies out
      ensures out.s == s.(owners := out.s.owners, podSets := out.s.podSets)
      ensures (out.s.owners == null <==> s.owners == null) && Elements(out.s.owners) == Elements(s.owners)
      ensures out.s.owners != null ==> fresh(out.s.owners)
      ensures (out.s.podSets == null <==> s.podSets == null) && (out.s.podSets != null ==> fresh(out.s.podSets))
      ensures |Elements(out.s.podSets)| == |Elements(s.podSets)|
      ensures Separate(Elements(out.s.podSets), ts, reached) && fresh(reached)
      ensures forall i :: 0 <= i < |Elements(s.podSets)| ==>
                PointsTo(Elements(out.s.podSets)[i], ts[i], old(InfoAt(Elements(s.podSets)[i])))
    {
      var owners := CopyStrings(s.owners);
      var podSets;
      podSets, ts, reached := CopyInfos(s.podSets);
      out.s := s.(owners := owners, podSets := podSets);
    }
  }
}
