/** The generated deep copies of the spec types: charts behind pointers, a pointer to a byte slice, maps,
    and slices of pointers to pod sets. */
module DeepCopySpec {
  import opened Prelude
  import opened DeepCopy

  /** A map behind its reference. */
  class Table {
    var entries: map<string, string>

    constructor (entries: map<string, string>)
      ensures this.entries == entries
    {
      this.entries := entries;
    }
  }

  datatype ChartURL = ChartURL(url: string, chartVersion: string)

  datatype IntOrString = IntVal(i: int32) | StrVal(s: string)

  type Byte = x: int | 0 <= x < 256

  /** A node selector term has a foreign deep copy; a number stands for its value. */
  type SelectorTerm = nat

  // ---------------------------------------------------------------- ChartSpec

  datatype ChartStruct = ChartStruct(rawChart: Cell?<array?<Byte>>, charURL: Cell?<ChartURL>)

  datatype ChartValue = ChartValue(rawChart: Option<Option<seq<Byte>>>, charURL: Option<ChartURL>)

  const NO_CHART := ChartStruct(null, null)

  /** bytes is the slice behind rawChart, nil without one. */
  ghost predicate Behind(t: ChartStruct, bytes: array?<Byte>)
    reads t.rawChart
  {
    bytes == if t.rawChart == null then null else t.rawChart.value
  }

  ghost function ChartValueOf(t: ChartStruct, bytes: array?<Byte>): ChartValue
    reads t.charURL, bytes
  {
    ChartValue(if t.rawChart == null then None else Some(if bytes == null then None else Some(bytes[..])),
               if t.charURL == null then None else Some(t.charURL.value))
  }

  method CopyBytes(a: array?<Byte>, ghost others: set<object?>) returns (b: array?<Byte>)
    ensures b == null <==> a == null
    ensures b != null ==> fresh(b) && b[..] == a[..]
    ensures Apart(b, others)
  {
    if a == null { return null; }
    b := new Byte[a.Length](i requires 0 <= i < a.Length reads a => a[i]);
    assert b[..] == a[..];
  }

  class ChartSpec {
    var s: ChartStruct

    constructor ()
      ensures s == NO_CHART
    {
      s := NO_CHART;
    }

    method DeepCopyInto(out: ChartSpec, ghost bytes: array?<Byte>) returns (ghost copied: array?<Byte>)
      requires out != this && Behind(s, bytes)
      modifies out
      ensures Behind(out.s, copied) && ChartValueOf(out.s, copied) == old(ChartValueOf(s, bytes))
      ensures SameChart(s, out.s)
      ensures (out.s.rawChart == null || fresh(out.s.rawChart)) && (out.s.charURL == null || fresh(out.s.charURL))
      ensures copied == null || fresh(copied)
      ensures Apart(out.s.charURL, {out.s.rawChart, copied}) && Apart(copied, {out.s.rawChart})
    {
      var raw: Cell?<array?<Byte>> := null;
      copied := null;
      if s.rawChart != null {
        var b := CopyBytes(s.rawChart.value, {});
        raw := new Cell(b);
        copied := b;
      }
      var url := CopyCell(s.charURL, {raw, copied});
      out.s := ChartStruct(raw, url);
    }
  }

  /** Equal URLs, and equal bytes behind the pointer to the slice, or nil in the same places. */
  ghost predicate SameChart(s: ChartStruct, t: ChartStruct)
    reads s.rawChart, t.rawChart, s.charURL, t.charURL
    reads if s.rawChart == null then {} else {s.rawChart.value}
    reads if t.rawChart == null then {} else {t.rawChart.value}
  {
    && SameCell(s.charURL, t.charURL) && (s.rawChart == null <==> t.rawChart == null)
    && (s.rawChart != null && t.rawChart != null ==>
        && (s.rawChart.value == null <==> t.rawChart.value == null)
        && (s.rawChart.value != null && t.rawChart.value != null ==> t.rawChart.value[..] == s.rawChart.value[..]))
  }

  // ---------------------------------------------------------------- PodSet

  datatype PodStruct = PodStruct(
    name: string, image: string, version: string, rawValues: string,
    nodeSelectorTerm: Cell?<SelectorTerm>, replicas: Cell?<IntOrString>, chart: ChartSpec?, meta: Table?)

  datatype PodValue = PodValue(
    name: string, image: string, version: string, rawValues: string,
    nodeSelectorTerm: Option<SelectorTerm>, replicas: Option<IntOrString>, chart: Option<ChartValue>,
    meta: Option<map<string, string>>)

  const EMPTY_POD := PodStruct("", "", "", "", null, null, null, null)

  /** A pod set's struct together with the struct of its chart and the chart's bytes, if there are any. */
  datatype Shape = Shape(pod: PodStruct, chart: ChartStruct, bytes: array?<Byte>)

  ghost function ShapeReach(h: Shape): set<object?> {
    {h.pod.nodeSelectorTerm as object?, h.pod.replicas, h.pod.chart, h.pod.meta,
     h.chart.rawChart, h.chart.charURL, h.bytes} - {null}
  }

  /** The seven places are different. */
  ghost predicate ShapeUnshared(h: Shape) {
    && Apart(h.pod.replicas, {h.pod.nodeSelectorTerm})
    && Apart(h.pod.chart, {h.pod.nodeSelectorTerm as object?, h.pod.replicas})
    && Apart(h.pod.meta, {h.pod.nodeSelectorTerm as object?, h.pod.replicas, h.pod.chart})
    && Apart(h.chart.rawChart, {h.pod.nodeSelectorTerm as object?, h.pod.replicas, h.pod.chart, h.pod.meta})
    && Apart(h.bytes, {h.pod.nodeSelectorTerm as object?, h.pod.replicas, h.pod.chart, h.pod.meta, h.chart.rawChart})
    && Apart(h.chart.charURL,
        {h.pod.nodeSelectorTerm as object?, h.pod.replicas, h.pod.chart, h.pod.meta, h.chart.rawChart, h.bytes})
  }

  /** The heap agrees with the shape of the pod set at p. */
  ghost predicate Shaped(p: PodSet, h: Shape)
    reads p, h.pod.chart, h.chart.rawChart
  {
    && p.s == h.pod
    && h.chart == (if h.pod.chart == null then NO_CHART else h.pod.chart.s)
    && Behind(h.chart, h.bytes)
  }

  ghost function ShapeValue(h: Shape): PodValue
    reads h.pod.nodeSelectorTerm, h.pod.replicas, h.pod.meta, h.chart.charURL, h.bytes
  {
    PodValue(h.pod.name, h.pod.image, h.pod.version, h.pod.rawValues,
             if h.pod.nodeSelectorTerm == null then None else Some(h.pod.nodeSelectorTerm.value),
             if h.pod.replicas == null then None else Some(h.pod.replicas.value),
             if h.pod.chart == null then None else Some(ChartValueOf(h.chart, h.bytes)),
             if h.pod.meta == null then None else Some(h.pod.meta.entries))
  }

  method CopyTable(m: Table?, ghost others: set<object?>) returns (n: Table?)
    ensures n == null <==> m == null
    ensures n != null ==> fresh(n) && n.entries == m.entries
    ensures Apart(n, others)
  {
    if m == null { return null; }
    n := new Table(map k | k in m.entries :: m.entries[k]);
  }

  method CopyChart(c: ChartSpec?, ghost h: Shape, ghost others: set<object?>)
    returns (d: ChartSpec?, ghost t: ChartStruct, ghost bytes: array?<Byte>)
    requires c == h.pod.chart && h.chart == (if c == null then NO_CHART else c.s) && Behind(h.chart, h.bytes)
    ensures d == null <==> c == null
    ensures d != null ==> fresh(d) && ChartValueOf(t, bytes) == old(ChartValueOf(h.chart, h.bytes))
    ensures t == (if d == null then NO_CHART else d.s) && Behind(t, bytes)
    ensures (t.rawChart == null || fresh(t.rawChart)) && (t.charURL == null || fresh(t.charURL))
    ensures bytes == null || fresh(bytes)
    ensures Apart(d, others) && Apart(t.rawChart, others + {d}) && Apart(bytes, others + {d, t.rawChart})
    ensures Apart(t.charURL, others + {d, t.rawChart, bytes})
  {
    if c == null { return null, NO_CHART, null; }
    d := new ChartSpec();
    bytes := c.DeepCopyInto(d, h.bytes);
    t := d.s;
  }

  /** The struct of the copy of a pod set p of shape h, with everything behind it. */
  method CopyPod(p: PodSet, ghost h: Shape) returns (pod: PodStruct, ghost t: Shape)
    requires Shaped(p, h)
    ensures t.pod == pod && t.chart == (if pod.chart == null then NO_CHART else pod.chart.s) && Behind(t.chart, t.bytes)
    ensures ShapeValue(t) == old(ShapeValue(h)) && ShapeUnshared(t) && fresh(ShapeReach(t))
  {
    var term := CopyCell(p.s.nodeSelectorTerm, {});
    var replicas := CopyCell(p.s.replicas, {term});
    var chart, chartStruct, bytes := CopyChart(p.s.chart, h, {term as object?, replicas});
    var meta := CopyTable(p.s.meta,
        {term as object?, replicas, chart, chartStruct.rawChart, chartStruct.charURL, bytes});
    pod := p.s.(nodeSelectorTerm := term, replicas := replicas, chart := chart, meta := meta);
    t := Shape(pod, chartStruct, bytes);
  }

  class PodSet {
    var s: PodStruct

    constructor ()
      ensures s == EMPTY_POD
    {
      s := EMPTY_POD;
    }

    /** h is the shape of the original, t that of the copy. */
    method DeepCopyInto(out: PodSet, ghost h: Shape) returns (ghost t: Shape)
      requires out != this && Shaped(this, h)
      modifies out
      ensures Shaped(out, t) && ShapeValue(t) == old(ShapeValue(h))
      ensures fresh(ShapeReach(t)) && ShapeUnshared(t)
      ensures var o := out.s;
        && o == s.(nodeSelectorTerm := o.nodeSelectorTerm, replicas := o.replicas, chart := o.chart, meta := o.meta)
        && SameCell(s.nodeSelectorTerm, o.nodeSelectorTerm) && SameCell(s.replicas, o.replicas)
        && (s.meta == null <==> o.meta == null) && (s.chart == null <==> o.chart == null)
        && (s.meta != null ==> o.meta.entries == s.meta.entries)
      ensures s.chart != null ==> SameChart(s.chart.s, out.s.chart.s)
    {
      var pod;
      pod, t := CopyPod(this, h);
      out.s := pod;
    }
  }

  // ---------------------------------------------------------------- slices of pod sets

  /** The pod sets, as far as they are not nil, have these shapes. */
  ghost predicate AllShaped(ps: seq<PodSet?>, hs: seq<Shape>)
    reads ps, set i | 0 <= i < |hs| :: hs[i].pod.chart, set i | 0 <= i < |hs| :: hs[i].chart.rawChart
  {
    |hs| == |ps| && forall i :: 0 <= i < |ps| && ps[i] != null ==> Shaped(ps[i], hs[i])
  }

  ghost function ShapeOf(p: PodSet): Shape
    reads p, p.s.chart, if p.s.chart == null then {} else {p.s.chart.s.rawChart}
  {
    var chart := if p.s.chart == null then NO_CHART else p.s.chart.s;
    Shape(p.s, chart, if chart.rawChart == null then null else chart.rawChart.value)
  }

  /** Every slice of pod sets has shapes, so asking for them excludes nothing. */
  lemma {:induction false} ShapesExist(ps: seq<PodSet?>) returns (hs: seq<Shape>)
    ensures AllShaped(ps, hs)
  {
    hs := [];
    if ps != [] {
      var last := ps[|ps| - 1];
      hs := ShapesExist(ps[..|ps| - 1]);
      hs := hs + [if last == null then Shape(EMPTY_POD, NO_CHART, null) else ShapeOf(last)];
    }
  }

  ghost function ValueAt(p: PodSet?, h: Shape): Option<PodValue>
    reads h.pod.nodeSelectorTerm, h.pod.replicas, h.pod.meta, h.chart.charURL, h.bytes
  {
    if p == null then None else Some(ShapeValue(h))
  }

  /** q points to a pod set of shape t and value v, or to nothing. */
  ghost predicate PodPoints(q: PodSet?, t: Shape, v: Option<PodValue>)
    reads q, t.pod.chart, t.chart.rawChart, t.pod.nodeSelectorTerm, t.pod.replicas, t.pod.meta, t.chart.charURL, t.bytes
  {
    (q != null ==> Shaped(q, t)) && v == ValueAt(q, t)
  }

  method CopyPodPointer(p: PodSet?, ghost h: Shape, ghost others: set<object?>) returns (q: PodSet?, ghost t: Shape)
    requires p != null ==> Shaped(p, h)
    ensures PodPoints(q, t, old(ValueAt(p, h)))
    ensures q != null ==>
              fresh(q) && fresh(ShapeReach(t)) && ShapeUnshared(t) && q !in others && ShapeReach(t) !! others
  {
    t := h;
    if p == null { return null, t; }
    q := new PodSet();
    t := p.DeepCopyInto(q, h);
  }

  /** The copies made so far share nothing, and `reached` covers them. */
  ghost predicate PodsSeparate(qs: seq<PodSet?>, ts: seq<Shape>, reached: set<object?>) {
    && |qs| == |ts|
    && (forall i :: 0 <= i < |qs| && qs[i] != null ==>
        ShapeUnshared(ts[i]) && qs[i] in reached && ShapeReach(ts[i]) <= reached)
    && (forall i, j :: 0 <= i < j < |qs| && qs[i] != null && qs[j] != null ==>
        qs[i] != qs[j] && ShapeReach(ts[i]) !! ShapeReach(ts[j]))
  }

  lemma PodsSeparateSnoc(qs: seq<PodSet?>, ts: seq<Shape>, reached: set<object?>, q: PodSet?, t: Shape)
    requires PodsSeparate(qs, ts, reached)
    requires q != null ==> ShapeUnshared(t) && q !in reached && ShapeReach(t) !! reached
    ensures PodsSeparate(qs + [q], ts + [t], if q == null then reached else reached + {q} + ShapeReach(t))
  {
  }

  method CopyPodPointers(ps: seq<PodSet?>, ghost hs: seq<Shape>)
    returns (qs: seq<PodSet?>, ghost ts: seq<Shape>, ghost reached: set<object?>)
    requires AllShaped(ps, hs)
    ensures |qs| == |ps| && PodsSeparate(qs, ts, reached) && fresh(reached)
    ensures forall i :: 0 <= i < |ps| ==> PodPoints(qs[i], ts[i], old(ValueAt(ps[i], hs[i])))
  {
    qs, ts, reached := [], [], {};
    for i := 0 to |ps|
      invariant |qs| == i && PodsSeparate(qs, ts, reached) && fresh(reached)
      invariant forall j :: 0 <= j < i ==> PodPoints(qs[j], ts[j], old(ValueAt(ps[j], hs[j])))
    {
      var q, t := CopyPodPointer(ps[i], hs[i], reached);
      PodsSeparateSnoc(qs, ts, reached, q, t);
      if q != null { reached := reached + {q} + ShapeReach(t); }
      qs, ts := qs + [q], ts + [t];
    }
  }

  method CopyPods(a: array?<PodSet?>, ghost hs: seq<Shape>)
    returns (b: array?<PodSet?>, ghost ts: seq<Shape>, ghost reached: set<object?>)
    requires AllShaped(Elements(a), hs)
    ensures (b == null <==> a == null) && (b != null ==> fresh(b))
    ensures |Elements(b)| == |Elements(a)| && PodsSeparate(Elements(b), ts, reached) && fresh(reached)
    ensures forall i :: 0 <= i < |Elements(a)| ==> PodPoints(Elements(b)[i], ts[i], old(ValueAt(Elements(a)[i], hs[i])))
  {
    if a == null { return null, [], {}; }
    var qs;
    qs, ts, reached := CopyPodPointers(a[..], hs);
    b := new PodSet?[|qs|](i requires 0 <= i < |qs| => qs[i]);
    assert Elements(b) == qs;
  }

  // ---------------------------------------------------------------- Topology, TargetCluster

  class Topology {
    var podSets: array?<PodSet?>

    constructor (podSets: array?<PodSet?>)
      ensures this.podSets == podSets
    {
      this.podSets := podSets;
    }

    /** hs are the shapes of the original's pod sets, ts those of the copy's. */
    method DeepCopyInto(out: Topology, ghost hs: seq<Shape>) returns (ghost ts: seq<Shape>, ghost reached: set<object?>)
      requires out != this && AllShaped(Elements(podSets), hs)
      modifies out
      ensures (out.podSets == null <==> podSets == null) && (out.podSets != null ==> fresh(out.podSets))
      ensures |Elements(out.podSets)| == |Elements(podSets)| && PodsSeparate(Elements(out.podSets), ts, reached)
                && fresh(reached)
      ensures forall i :: 0 <= i < |Elements(podSets)| ==>
                PodPoints(Elements(out.podSets)[i], ts[i], old(ValueAt(Elements(podSets)[i], hs[i])))
    {
      var copied;
      copied, ts, reached := CopyPods(podSets, hs);
      out.podSets := copied;
    }
  }

  datatype ClusterStruct = ClusterStruct(name: string, meta: Table?, podSets: array?<PodSet?>)

  class TargetCluster {
    var s: ClusterStruct

    constructor (s: ClusterStruct)
      ensures this.s == s
    {
      this.s := s;
    }

    method DeepCopyInto(out: TargetCluster, ghost hs: seq<Shape>)
      returns (ghost ts: seq<Shape>, ghost reached: set<object?>)
      requires out != this && AllShaped(Elements(s.podSets), hs)
      modifies out
      ensures out.s.name == s.name && (out.s.meta == null <==> s.meta == null)
      ensures out.s.meta != null ==> fresh(out.s.meta) && out.s.meta !in reached && out.s.meta.entries == s.meta.entries
      ensures (out.s.podSets == null <==> s.podSets == null) && (out.s.podSets != null ==> fresh(out.s.podSets))
      ensures |Elements(out.s.podSets)| == |Elements(s.podSets)|
                && PodsSeparate(Elements(out.s.podSets), ts, reached) && fresh(reached)
      ensures forall i :: 0 <= i < |Elements(s.podSets)| ==>
                PodPoints(Elements(out.s.podSets)[i], ts[i], old(ValueAt(Elements(s.podSets)[i], hs[i])))
    {
      var table := CopyTable(s.meta, {});
      var copied;
      copied, ts, reached := CopyPods(s.podSets, hs);
      out.s := s.(meta := table, podSets := copied);
    }
  }
}
