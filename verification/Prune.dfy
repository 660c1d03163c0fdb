/** JSON pruning: `deleteNullInObj` and `deleteNullInSlice`. One pass drops nulls, empty strings and
    empty containers, flattens arrays nested in arrays, and may itself leave new empty containers. */
module Prune {
  import opened Prelude

  datatype Json =
    | Null
    | Bool(b: bool)
    | Num(n: real)
    | Str(s: string)
    | Arr(items: seq<Json>)
    | Obj(fields: map<string, Json>)

  type Fields = map<string, Json>

  /** `v == nil || isZero(v)` for decoded JSON: numbers and booleans are never zero, decoded maps and
      slices are never nil. */
  predicate IsZero(v: Json) { v.Null? || v == Str("") }

  // ---------------------------------------------------------------- one pass

  /** What becomes of the value of an object key; None when the key is dropped. */
  function PruneField(v: Json): Option<Json>
    decreases v, 1
  {
    if IsZero(v) then None
    else
      match v
      case Arr(items) => if |items| > 0 then Some(Arr(PruneSlice(items))) else None
      case Obj(fields) =>
        if fields == map[] then None
        else
          var sub := PruneObj(fields);
          if sub != map[] then Some(Obj(sub)) else None
      case _ => Some(v)
  }

  /** What an element contributes to the array it is in. */
  function PruneElement(v: Json): seq<Json>
    decreases v, 1
  {
    if IsZero(v) then []
    else
      match v
      case Arr(items) => if |items| > 0 then PruneSlice(items) else []
      case Obj(fields) => if fields != map[] then [Obj(PruneObj(fields))] else []
      case _ => [v]
  }

  function PruneObj(m: Fields): Fields
    decreases Obj(m), 0
  {
    map k | k in m && PruneField(m[k]).Some? :: PruneField(m[k]).value
  }

  function PruneSlice(xs: seq<Json>): seq<Json>
    decreases xs, 0
  {
    if xs == [] then [] else PruneSlice(xs[..|xs| - 1]) + PruneElement(xs[|xs| - 1])
  }

  /** The loop over the keys of an object (Go visits them in any order) into a new map. */
  method DeleteNullInObj(m: Fields) returns (filtered: Fields)
    ensures filtered == PruneObj(m)
    decreases Obj(m), 0
  {
    filtered := map[];
    var rest := m.Keys;
    while rest != {}
      invariant rest <= m.Keys
      invariant filtered == map k | k in m && k !in rest && PruneField(m[k]).Some? :: PruneField(m[k]).value
    {
      var k :| k in rest;
      rest := rest - {k};
      var v := m[k];
      if IsZero(v) { continue; }
      match v {
        case Arr(items) =>
          if |items| > 0 {
            var sub := DeleteNullInSlice(items);
            filtered := filtered[k := Arr(sub)];
          }
        case Obj(fields) =>
          if fields == map[] { continue; }
          var sub := DeleteNullInObj(fields);
          if sub != map[] { filtered := filtered[k := Obj(sub)]; }
        case _ =>
          filtered := filtered[k := v];
      }
    }
  }

  /** The loop over the elements of an array, appending to a new one. */
  method DeleteNullInSlice(xs: seq<Json>) returns (filtered: seq<Json>)
    ensures filtered == PruneSlice(xs)
    decreases xs, 0
  {
    filtered := [];
    for i := 0 to |xs|
      invariant filtered == PruneSlice(xs[..i])
    {
      assert xs[..i + 1][..i] == xs[..i];
      var v := xs[i];
      if IsZero(v) { continue; }
      match v {
        case Arr(items) =>
          if |items| > 0 {
            var sub := DeleteNullInSlice(items);
            filtered := filtered + sub;
          }
        case Obj(fields) =>
          if fields != map[] {
            var sub := DeleteNullInObj(fields);
            filtered := filtered + [Obj(sub)];
          }
        case _ =>
          filtered := filtered + [v];
      }
    }
    assert xs[..|xs|] == xs;
  }

  /** What the repository's own examples of one pass come to: nulls, empty strings and empty containers go, also
      what only becomes empty below a key, while numbers and booleans stay; in an array an object that becomes
      empty stays, arrays are spliced in, and a key keeps an array that becomes empty. */
  lemma OnePass(k: string, x: Json)
    requires x.Num? || x.Bool?
    ensures PruneSlice([Str(""), x, Obj(map[k := Null])]) == [x, Obj(map[])]
    ensures PruneSlice([Arr([]), Obj(map[]), Arr([x])]) == [x]
    ensures PruneObj(map[k := Obj(map[k := Null])]) == map[]
    ensures PruneObj(map[k := Arr([Null])]) == map[k := Arr([])]
  {
    PruneOneKey(k, Null);
    assert k in map[k := Null] && PruneElement(Obj(map[k := Null])) == [Obj(map[])] && PruneElement(x) == [x];
    PruneOneKey(k, Obj(map[k := Null]));
    PruneOneKey(k, Arr([Null]));
    PruneOfThree(Str(""), x, Obj(map[k := Null]));
    PruneOfThree(Arr([]), Obj(map[]), Arr([x]));
    PruneOfOne(x);
    PruneOfOne(Null);
  }

  lemma PruneOneKey(k: string, v: Json)
    ensures PruneObj(map[k := v]) == match PruneField(v) case None => map[] case Some(w) => map[k := w]
  {
    var m := map[k := v];
    assert m[k] == v;
  }

  lemma PruneOfOne(v: Json)
    ensures PruneSlice([v]) == PruneElement(v)
  {
    PruneSliceSnoc([], v);
    assert [] + [v] == [v] && PruneSlice([]) == [];
  }

  lemma PruneOfThree(u: Json, v: Json, w: Json)
    ensures PruneSlice([u, v, w]) == PruneElement(u) + PruneElement(v) + PruneElement(w)
  {
    PruneOfOne(u);
    PruneSliceSnoc([u], v);
    PruneSliceSnoc([u, v], w);
    assert [u] + [v] == [u, v] && [u, v] + [w] == [u, v, w];
  }

  lemma PruneSliceSnoc(front: seq<Json>, last: Json)
    ensures PruneSlice(front + [last]) == PruneSlice(front) + PruneElement(last)
  {
    assert (front + [last])[..|front|] == front;
  }

  lemma {:induction false} PruneSliceConcat(a: seq<Json>, b: seq<Json>)
    ensures PruneSlice(a + b) == PruneSlice(a) + PruneSlice(b)
    decreases |b|
  {
    if b == [] {
      assert a + b == a;
    } else {
      var front, last := b[..|b| - 1], b[|b| - 1];
      PruneSliceConcat(a, front);
      PruneSliceSnoc(a + front, last);
      PruneSliceSnoc(front, last);
      assert b == front + [last] && a + b == (a + front) + [last];
    }
  }

  // ---------------------------------------------------------------- normal forms and node counts

  /** No null, empty string, empty object or empty array below, and no array directly in an array. */
  predicate NormalField(v: Json)
    decreases v, 1
  {
    match v
    case Null => false
    case Str(s) => s != ""
    case Arr(items) => items != [] && NormalItems(items)
    case Obj(fields) => fields != map[] && NormalObj(fields)
    case _ => true
  }

  predicate NormalElement(v: Json)
    decreases v, 2
  {
    !v.Arr? && NormalField(v)
  }

  predicate NormalObj(m: Fields)
    decreases Obj(m), 0
  {
    forall k :: k in m ==> NormalField(m[k])
  }

  predicate NormalItems(xs: seq<Json>)
    decreases xs, 0
  {
    forall i :: 0 <= i < |xs| ==> NormalElement(xs[i])
  }

  ghost function SumMap(s: map<string, nat>): nat {
    if s == map[] then 0
    else
      var k :| k in s;
      s[k] + SumMap(s - {k})
  }

  /** The number of nodes of a tree. */
  ghost function Size(v: Json): nat
    decreases v, 1
  {
    match v
    case Arr(items) => 1 + SizeItems(items)
    case Obj(fields) => 1 + SizeFields(fields)
    case _ => 1
  }

  ghost function SizeItems(xs: seq<Json>): nat
    decreases xs, 0
  {
    if xs == [] then 0 else SizeItems(xs[..|xs| - 1]) + Size(xs[|xs| - 1])
  }

  ghost function SizeFields(m: Fields): nat
    decreases Obj(m), 0
  {
    SumMap(map k | k in m :: Size(m[k]))
  }

  lemma {:induction false} SumTake(s: map<string, nat>, k: string)
    requires k in s
    ensures SumMap(s) == s[k] + SumMap(s - {k})
    decreases |s|
  {
    var j :| j in s && SumMap(s) == s[j] + SumMap(s - {j});
    if j != k {
      SumTake(s - {j}, k);
      SumTake(s - {k}, j);
      assert s - {j} - {k} == s - {k} - {j};
    }
  }

  /** Dropping keys and lowering values lowers the sum; really lowering one really lowers it. */
  lemma {:induction false} SumMonotone(a: map<string, nat>, b: map<string, nat>)
    requires forall k :: k in a ==> k in b && a[k] <= b[k]
    ensures SumMap(a) <= SumMap(b)
    ensures (exists k :: k in b && if k in a then a[k] < b[k] else b[k] > 0) ==> SumMap(a) < SumMap(b)
    decreases |b|
  {
    if b == map[] {
    } else {
      var k :| k in b && ((exists k :: k in b && if k in a then a[k] < b[k] else b[k] > 0)
                          ==> if k in a then a[k] < b[k] else b[k] > 0);
      SumTake(b, k);
      if k in a { SumTake(a, k); } else { assert a - {k} == a; }
      SumMonotone(a - {k}, b - {k});
    }
  }

  lemma {:induction false} SizeItemsConcat(a: seq<Json>, b: seq<Json>)
    ensures SizeItems(a + b) == SizeItems(a) + SizeItems(b)
  {
    if b == [] {
      assert a + b == a;
    } else {
      SizeItemsConcat(a, b[..|b| - 1]);
      assert (a + b)[..|a + b| - 1] == a + b[..|b| - 1];
    }
  }

  lemma SizeOne(v: Json)
    ensures SizeItems([v]) == Size(v)
  {
    assert [v][..0] == [];
  }

  // A pass leaves a normal value as it is and makes any other one smaller, in all four positions.

  ghost predicate FieldShrunk(v: Json) {
    if NormalField(v) then PruneField(v) == Some(v)
    else PruneField(v).None? || Size(PruneField(v).value) < Size(v)
  }

  lemma {:induction false} FieldShrinks(v: Json)
    ensures FieldShrunk(v) && Size(v) > 0
    decreases v, 1
  {
    match v
    case Arr(items) => if items != [] { SliceShrinks(items); }
    case Obj(fields) => if fields != map[] { ObjShrinks(fields); }
    case _ =>
  }

  lemma {:induction false} ElementShrinks(v: Json)
    ensures if NormalElement(v) then PruneElement(v) == [v] else SizeItems(PruneElement(v)) < Size(v)
    decreases v, 1
  {
    assert SizeItems([]) == 0;
    assert NormalElement(v) == (!v.Arr? && NormalField(v));
    match v
    case Arr(items) => if items != [] { SliceShrinks(items); }
    case Obj(fields) =>
      if fields != map[] {
        ObjShrinks(fields);
        if NormalObj(fields) { assert PruneObj(fields) == fields; assert Obj(PruneObj(fields)) == v; }
        SizeOne(Obj(PruneObj(fields)));
      }
    case _ => assert Size(v) == 1;
  }

  lemma {:induction false} ObjShrinks(m: Fields)
    ensures if NormalObj(m) then PruneObj(m) == m else SizeFields(PruneObj(m)) < SizeFields(m)
    decreases Obj(m), 0
  {
    forall k | k in m ensures FieldShrunk(m[k]) && Size(m[k]) > 0 {
      FieldShrinks(m[k]);
    }
    if !NormalObj(m) { FieldsSumShrinks(m); }
  }

  lemma FieldsSumShrinks(m: Fields)
    requires forall k :: k in m ==> FieldShrunk(m[k]) && Size(m[k]) > 0
    requires !NormalObj(m)
    ensures SizeFields(PruneObj(m)) < SizeFields(m)
  {
    var p := PruneObj(m);
    var sp, sm := map k | k in p :: Size(p[k]), map k | k in m :: Size(m[k]);
    assert forall k :: k in sp ==> k in sm && sp[k] <= sm[k];
    var k :| k in m && !NormalField(m[k]);
    assert k in sm && if k in sp then sp[k] < sm[k] else sm[k] > 0;
    SumMonotone(sp, sm);
  }

  lemma NormalItemsSnoc(front: seq<Json>, last: Json)
    ensures NormalItems(front + [last]) <==> NormalItems(front) && NormalElement(last)
  {
    var xs := front + [last];
    if NormalItems(xs) {
      assert xs[|front|] == last;
      forall i | 0 <= i < |front| ensures NormalElement(front[i]) { assert xs[i] == front[i]; }
    }
  }

  lemma {:induction false} SliceShrinks(xs: seq<Json>)
    ensures if NormalItems(xs) then PruneSlice(xs) == xs else SizeItems(PruneSlice(xs)) < SizeItems(xs)
    decreases xs, 0
  {
    if xs == [] {
    } else {
      var front, last := xs[..|xs| - 1], xs[|xs| - 1];
      assert xs == front + [last];
      NormalItemsSnoc(front, last);
      SliceShrinks(front);
      ElementShrinks(last);
      SizeItemsConcat(PruneSlice(front), PruneElement(last));
      SizeOne(last);
    }
  }

  /** Each pass either returns its input unchanged or strictly reduces the number of nodes, and the
      inputs it leaves unchanged are exactly the normal trees. */
  lemma PassShrinksOrIsDone(m: Fields)
    ensures PruneObj(m) == m <==> NormalObj(m)
    ensures PruneObj(m) != m ==> SizeFields(PruneObj(m)) < SizeFields(m)
  {
    ObjShrinks(m);
  }
}
