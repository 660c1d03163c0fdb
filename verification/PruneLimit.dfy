/** Where repeated pruning ends: a direct bottom-up normal form, the exact number of passes needed to
    reach it, a bound by nesting depth that is attained, and what every pass preserves. */
module PruneLimit {
  import opened Prelude
  import opened Prune

  // ---------------------------------------------------------------- the bottom-up normal form

  /** The reference: children first, and a container that ends up empty is dropped at once. */
  function NormField(v: Json): Option<Json>
    decreases v, 1
  {
    if IsZero(v) then None
    else
      match v
      case Arr(items) => var ys := NormSlice(items); if ys == [] then None else Some(Arr(ys))
      case Obj(fields) => var sub := NormObj(fields); if sub == map[] then None else Some(Obj(sub))
      case _ => Some(v)
  }

  function NormElement(v: Json): seq<Json>
    decreases v, 1
  {
    if IsZero(v) then []
    else
      match v
      case Arr(items) => NormSlice(items)
      case Obj(fields) => var sub := NormObj(fields); if sub == map[] then [] else [Obj(sub)]
      case _ => [v]
  }

  function NormObj(m: Fields): Fields
    decreases Obj(m), 0
  {
    map k | k in m && NormField(m[k]).Some? :: NormField(m[k]).value
  }

  function NormSlice(xs: seq<Json>): seq<Json>
    decreases xs, 0
  {
    if xs == [] then [] else NormSlice(xs[..|xs| - 1]) + NormElement(xs[|xs| - 1])
  }

  lemma NormSliceSnoc(front: seq<Json>, last: Json)
    ensures NormSlice(front + [last]) == NormSlice(front) + NormElement(last)
  {
    assert (front + [last])[..|front|] == front;
  }

  lemma {:induction false} NormSliceConcat(a: seq<Json>, b: seq<Json>)
    ensures NormSlice(a + b) == NormSlice(a) + NormSlice(b)
    decreases |b|
  {
    if b == [] {
      assert a + b == a;
    } else {
      var front, last := b[..|b| - 1], b[|b| - 1];
      NormSliceConcat(a, front);
      NormSliceSnoc(a + front, last);
      NormSliceSnoc(front, last);
      assert b == front + [last] && a + b == (a + front) + [last];
    }
  }

  lemma NormSliceOne(v: Json)
    ensures NormSlice([v]) == NormElement(v)
  {
    assert [v][..0] == [];
  }

  // A pass does not change the normal form.

  lemma {:induction false} FieldKeepsNorm(v: Json)
    ensures NormField(v) == match PruneField(v) case None => None case Some(w) => NormField(w)
    decreases v, 1
  {
    match v
    case Arr(items) => SliceKeepsNorm(items);
    case Obj(fields) => ObjKeepsNorm(fields);
    case _ =>
  }

  lemma {:induction false} ElementKeepsNorm(v: Json)
    ensures NormSlice(PruneElement(v)) == NormElement(v)
    decreases v, 1
  {
    match v
    case Arr(items) => SliceKeepsNorm(items);
    case Obj(fields) => ObjKeepsNorm(fields); NormSliceOne(Obj(PruneObj(fields)));
    case _ => NormSliceOne(v);
  }

  lemma {:induction false} ObjKeepsNorm(m: Fields)
    ensures NormObj(PruneObj(m)) == NormObj(m)
    decreases Obj(m), 0
  {
    forall k | k in m
      ensures NormField(m[k]) == match PruneField(m[k]) case None => None case Some(w) => NormField(w)
    {
      FieldKeepsNorm(m[k]);
    }
  }

  lemma {:induction false} SliceKeepsNorm(xs: seq<Json>)
    ensures NormSlice(PruneSlice(xs)) == NormSlice(xs)
    decreases xs, 0
  {
    if xs == [] {
    } else {
      var front, last := xs[..|xs| - 1], xs[|xs| - 1];
      SliceKeepsNorm(front);
      ElementKeepsNorm(last);
      NormSliceConcat(PruneSlice(front), PruneElement(last));
    }
  }

  // A normal tree is its own normal form, and the normal form is normal.

  lemma {:induction false} NormalFieldNorm(v: Json)
    requires NormalField(v)
    ensures NormField(v) == Some(v)
    decreases v, 1
  {
    match v
    case Arr(items) => NormalItemsNorm(items);
    case Obj(fields) => NormalObjNorm(fields);
    case _ =>
  }

  lemma {:induction false} NormalObjNorm(m: Fields)
    requires NormalObj(m)
    ensures NormObj(m) == m
    decreases Obj(m), 0
  {
    forall k | k in m ensures NormField(m[k]) == Some(m[k]) { NormalFieldNorm(m[k]); }
  }

  lemma {:induction false} NormalItemsNorm(xs: seq<Json>)
    requires NormalItems(xs)
    ensures NormSlice(xs) == xs
    decreases xs, 0
  {
    if xs == [] {
    } else {
      var front, last := xs[..|xs| - 1], xs[|xs| - 1];
      assert xs == front + [last];
      NormalItemsSnoc(front, last);
      NormalItemsNorm(front);
      assert !last.Arr? && NormalField(last);
      NormalFieldNorm(last);
    }
  }

  lemma {:induction false} NormIsNormal(m: Fields)
    ensures NormalObj(NormObj(m))
    decreases Obj(m), 0
  {
    forall k | k in m && NormField(m[k]).Some? ensures NormalField(NormField(m[k]).value) {
      FieldNormIsNormal(m[k]);
    }
  }

  lemma {:induction false} FieldNormIsNormal(v: Json)
    ensures NormField(v).Some? ==> NormalField(NormField(v).value)
    ensures NormalItems(NormElement(v))
    decreases v, 1
  {
    match v
    case Arr(items) => SliceNormIsNormal(items);
    case Obj(fields) => NormIsNormal(fields);
    case _ =>
  }

  lemma {:induction false} SliceNormIsNormal(xs: seq<Json>)
    ensures NormalItems(NormSlice(xs))
    decreases xs, 0
  {
    if xs == [] {
    } else {
      SliceNormIsNormal(xs[..|xs| - 1]);
      FieldNormIsNormal(xs[|xs| - 1]);
    }
  }

  // ---------------------------------------------------------------- how many passes

  function Passes(m: Fields, n: nat): Fields {
    if n == 0 then m else Passes(PruneObj(m), n - 1)
  }

  /** The value of a key is normal, or gone, after n passes. */
  ghost predicate SettlesField(v: Json, n: nat)
    decreases v, 1
  {
    match v
    case Null => n >= 1
    case Str(s) => s != "" || n >= 1
    case Arr(items) =>
      if NormSlice(items) == [] then n >= 1 && SettlesItems(items, n - 1) else SettlesItems(items, n)
    case Obj(fields) => (fields == map[] ==> n >= 1) && SettlesObj(fields, n)
    case _ => true
  }

  /** An array element contributes only normal elements after n passes. */
  ghost predicate SettlesElement(v: Json, n: nat)
    decreases v, 1
  {
    match v
    case Null => n >= 1
    case Str(s) => s != "" || n >= 1
    case Arr(items) => n >= 1 && SettlesItems(items, n)
    case Obj(fields) =>
      if NormObj(fields) == map[] then n >= 1 && SettlesObj(fields, if fields == map[] then n else n - 1)
      else SettlesObj(fields, n)
    case _ => true
  }

  ghost predicate SettlesObj(m: Fields, n: nat)
    decreases Obj(m), 0
  {
    forall k :: k in m ==> SettlesField(m[k], n)
  }

  ghost predicate SettlesItems(xs: seq<Json>, n: nat)
    decreases xs, 0
  {
    forall i :: 0 <= i < |xs| ==> SettlesElement(xs[i], n)
  }

  // Settled after no pass means normal.

  lemma {:induction false} SettledFieldIsNormal(v: Json)
    ensures SettlesField(v, 0) <==> NormalField(v)
    ensures SettlesElement(v, 0) <==> NormalElement(v)
    decreases v, 1
  {
    assert NormalElement(v) == (!v.Arr? && NormalField(v));
    match v
    case Arr(items) =>
      SettledItemsAreNormal(items);
      if NormalItems(items) { NormalItemsNorm(items); }
    case Obj(fields) =>
      SettledObjIsNormal(fields);
      if NormalObj(fields) { NormalObjNorm(fields); }
    case _ =>
  }

  lemma {:induction false} SettledObjIsNormal(m: Fields)
    ensures SettlesObj(m, 0) <==> NormalObj(m)
    decreases Obj(m), 0
  {
    forall k | k in m ensures SettlesField(m[k], 0) <==> NormalField(m[k]) { SettledFieldIsNormal(m[k]); }
  }

  lemma {:induction false} SettledItemsAreNormal(xs: seq<Json>)
    ensures SettlesItems(xs, 0) <==> NormalItems(xs)
    decreases xs, 0
  {
    forall i | 0 <= i < |xs| ensures SettlesElement(xs[i], 0) <==> NormalElement(xs[i]) { SettledFieldIsNormal(xs[i]); }
  }

  // One pass uses up exactly one of the passes needed.

  lemma {:induction false} FieldStep(v: Json, n: nat)
    ensures SettlesField(v, n + 1) <==> (PruneField(v).Some? ==> SettlesField(PruneField(v).value, n))
    decreases v, 1
  {
    match v
    case Arr(items) => ArrayFieldStep(items, n);
    case Obj(fields) => ObjStep(fields, n);
    case _ =>
  }

  lemma {:induction false} ArrayFieldStep(items: seq<Json>, n: nat)
    ensures SettlesField(Arr(items), n + 1) <==> (items != [] ==> SettlesField(Arr(PruneSlice(items)), n))
    decreases Arr(items), 0
  {
    SliceKeepsNorm(items);
    if NormSlice(items) != [] {
      ItemsStep(items, n);
    } else if n > 0 {
      ItemsStep(items, n - 1);
    } else if items != [] {
      UnsettledItems(items);
    }
  }

  lemma {:induction false} ElementStep(v: Json, n: nat)
    ensures SettlesElement(v, n + 1) <==> SettlesItems(PruneElement(v), n)
    decreases v, 1
  {
    match v
    case Arr(items) => ItemsStep(items, n);
    case Obj(fields) =>
      ObjKeepsNorm(fields);
      SettlesOne(Obj(PruneObj(fields)), n);
      if NormObj(fields) != map[] {
        ObjStep(fields, n);
      } else if n > 0 {
        ObjStep(fields, n - 1);
      } else if fields != map[] {
        UnsettledObj(fields);
      }
    case _ =>
  }

  lemma SettlesOne(v: Json, n: nat)
    ensures SettlesItems([v], n) <==> SettlesElement(v, n)
  {
    assert [v][0] == v;
  }

  /** A non-empty container whose normal form is empty is not settled yet. */
  lemma UnsettledItems(xs: seq<Json>)
    requires xs != [] && NormSlice(xs) == []
    ensures !SettlesItems(xs, 0)
  {
    SettledItemsAreNormal(xs);
    if NormalItems(xs) { NormalItemsNorm(xs); }
  }

  lemma UnsettledObj(m: Fields)
    requires m != map[] && NormObj(m) == map[]
    ensures !SettlesObj(m, 0)
  {
    SettledObjIsNormal(m);
    if NormalObj(m) { NormalObjNorm(m); }
  }

  lemma {:induction false} ObjStep(m: Fields, n: nat)
    ensures SettlesObj(m, n + 1) <==> SettlesObj(PruneObj(m), n)
    decreases Obj(m), 0
  {
    forall k | k in m
      ensures SettlesField(m[k], n + 1) <==> (PruneField(m[k]).Some? ==> SettlesField(PruneField(m[k]).value, n))
    {
      FieldStep(m[k], n);
    }
    var p := PruneObj(m);
    if SettlesObj(m, n + 1) {
      forall k | k in p ensures SettlesField(p[k], n) { assert SettlesField(m[k], n + 1); }
    }
    if SettlesObj(p, n) {
      forall k | k in m ensures SettlesField(m[k], n + 1) {
        if k in p { assert SettlesField(p[k], n); }
      }
    }
  }

  lemma SettlesItemsConcat(a: seq<Json>, b: seq<Json>, n: nat)
    ensures SettlesItems(a + b, n) <==> SettlesItems(a, n) && SettlesItems(b, n)
  {
    var ab := a + b;
    if SettlesItems(ab, n) {
      forall i | 0 <= i < |a| ensures SettlesElement(a[i], n) { assert ab[i] == a[i]; }
      forall i | 0 <= i < |b| ensures SettlesElement(b[i], n) { assert ab[|a| + i] == b[i]; }
    }
  }

  lemma {:induction false} ItemsStep(xs: seq<Json>, n: nat)
    ensures SettlesItems(xs, n + 1) <==> SettlesItems(PruneSlice(xs), n)
    decreases xs, 0
  {
    if xs == [] {
    } else {
      var front, last := xs[..|xs| - 1], xs[|xs| - 1];
      assert xs == front + [last];
      ItemsStep(front, n);
      ElementStep(last, n);
      SettlesItemsConcat(front, [last], n + 1);
      SettlesItemsConcat(PruneSlice(front), PruneElement(last), n);
      SettlesOne(last, n + 1);
    }
  }

  /** Exactly how many passes: n passes give a normal tree if and only if the tree settles within n. */
  lemma {:induction false} PassesExactly(m: Fields, n: nat)
    ensures NormalObj(Passes(m, n)) <==> SettlesObj(m, n)
  {
    if n == 0 {
      SettledObjIsNormal(m);
    } else {
      ObjStep(m, n - 1);
      PassesExactly(PruneObj(m), n - 1);
    }
  }

  // ---------------------------------------------------------------- convergence

  /** Nesting depth: a leaf or an empty container has depth 1. */
  predicate DepthAtMost(v: Json, d: nat)
    decreases v
  {
    d >= 1 &&
    match v
    case Arr(items) => forall i :: 0 <= i < |items| ==> DepthAtMost(items[i], d - 1)
    case Obj(fields) => forall k :: k in fields ==> DepthAtMost(fields[k], d - 1)
    case _ => true
  }

  predicate ObjDepthAtMost(m: Fields, d: nat) { forall k :: k in m ==> DepthAtMost(m[k], d) }

  lemma {:induction false} DepthGrows(v: Json, d: nat)
    requires DepthAtMost(v, d)
    ensures DepthAtMost(v, d + 1)
    decreases v
  {
    match v
    case Arr(items) => forall i | 0 <= i < |items| ensures DepthAtMost(items[i], d) { DepthGrows(items[i], d - 1); }
    case Obj(fields) => forall k | k in fields ensures DepthAtMost(fields[k], d) { DepthGrows(fields[k], d - 1); }
    case _ =>
  }

  lemma {:induction false} DepthSettles(v: Json, d: nat)
    requires DepthAtMost(v, d)
    ensures SettlesField(v, d) && SettlesElement(v, d)
    decreases v
  {
    match v
    case Arr(items) =>
      forall i | 0 <= i < |items| ensures SettlesElement(items[i], d) && SettlesElement(items[i], d - 1) {
        DepthGrows(items[i], d - 1);
        DepthSettles(items[i], d);
        DepthSettles(items[i], d - 1);
      }
    case Obj(fields) =>
      forall k | k in fields ensures SettlesField(fields[k], d) && SettlesField(fields[k], d - 1) {
        DepthGrows(fields[k], d - 1);
        DepthSettles(fields[k], d);
        DepthSettles(fields[k], d - 1);
      }
    case _ =>
  }

  lemma {:induction false} PassesKeepNorm(m: Fields, n: nat)
    ensures NormObj(Passes(m, n)) == NormObj(m)
  {
    if n == 0 {
    } else {
      ObjKeepsNorm(m);
      PassesKeepNorm(PruneObj(m), n - 1);
    }
  }

  /** Convergence: if the values of an object are nested at most d deep, d passes reach the bottom-up
      normal form, and every further pass leaves it alone. */
  lemma PassesConverge(m: Fields, d: nat)
    requires ObjDepthAtMost(m, d)
    ensures Passes(m, d) == NormObj(m) && NormalObj(NormObj(m)) && PruneObj(NormObj(m)) == NormObj(m)
  {
    forall k | k in m ensures SettlesField(m[k], d) { DepthSettles(m[k], d); }
    PassesExactly(m, d);
    PassesKeepNorm(m, d);
    NormalObjNorm(Passes(m, d));
    PassShrinksOrIsDone(NormObj(m));
  }

  /** Some depth always bounds a tree, so every tree converges. */
  lemma {:induction false} EveryTreeHasDepth(m: Fields) returns (d: nat)
    ensures ObjDepthAtMost(m, d)
  {
    d := SizeFields(m);
    forall k | k in m ensures DepthAtMost(m[k], d) {
      SizeOfField(m, k);
      SizeBoundsDepth(m[k], d);
    }
  }

  lemma {:induction false} SizeBoundsDepth(v: Json, d: nat)
    requires Size(v) <= d
    ensures DepthAtMost(v, d)
    decreases v
  {
    FieldShrinks(v);
    match v
    case Arr(items) =>
      forall i | 0 <= i < |items| ensures DepthAtMost(items[i], d - 1) {
        SizeOfItem(items, i);
        SizeBoundsDepth(items[i], d - 1);
      }
    case Obj(fields) =>
      forall k | k in fields ensures DepthAtMost(fields[k], d - 1) {
        SizeOfField(fields, k);
        SizeBoundsDepth(fields[k], d - 1);
      }
    case _ =>
  }

  lemma SizeOfField(m: Fields, k: string)
    requires k in m
    ensures Size(m[k]) <= SizeFields(m)
  {
    var sizes := map j | j in m :: Size(m[j]);
    SumTake(sizes, k);
    assert sizes[k] == Size(m[k]);
  }

  lemma {:induction false} SizeOfItem(xs: seq<Json>, i: nat)
    requires i < |xs|
    ensures Size(xs[i]) <= SizeItems(xs)
  {
    if i == |xs| - 1 {
    } else {
      SizeOfItem(xs[..|xs| - 1], i);
    }
  }

  // ---------------------------------------------------------------- the bound is attained

  /** Arrays and objects nested in turn around a null. */
  function ChainField(d: nat): Json { if d <= 1 then Null else Arr([ChainElement(d - 1)]) }

  function ChainElement(d: nat): Json { if d <= 1 then Null else Obj(map["k" := ChainField(d - 1)]) }

  lemma {:induction false} ChainSettles(d: nat, n: nat)
    requires d >= 1
    ensures SettlesField(ChainField(d), n) <==> n >= d
    ensures SettlesElement(ChainElement(d), n) <==> n >= d
    ensures NormField(ChainField(d)).None? && NormElement(ChainElement(d)) == []
    ensures DepthAtMost(ChainField(d), d) && DepthAtMost(ChainElement(d), d)
    decreases d
  {
    if d > 1 {
      var e, f := ChainElement(d - 1), ChainField(d - 1);
      ChainSettles(d - 1, if n > 0 then n - 1 else 0);
      NormSliceOne(e);
      assert [e][0] == e;
      var o := map["k" := f];
      assert o["k"] == f && NormObj(o) == map[];
    }
  }

  /** For every depth d >= 1 some object nested d deep is not normal after fewer than d passes. */
  lemma DepthBoundIsTight(d: nat, n: nat)
    requires d >= 1
    ensures var m := map["k" := ChainField(d)];
            ObjDepthAtMost(m, d) && (NormalObj(Passes(m, n)) <==> n >= d)
  {
    var m := map["k" := ChainField(d)];
    ChainSettles(d, n);
    PassesExactly(m, n);
    assert m["k"] == ChainField(d);
  }

  // ---------------------------------------------------------------- content

  /** The scalars pruning must keep. */
  predicate IsContent(leaf: Json) { leaf.Bool? || leaf.Num? || (leaf.Str? && leaf.s != "") }

  /** How often a leaf occurs at a path of object keys, array indices not counting. */
  function Occurs(v: Json, path: seq<string>, leaf: Json): nat
    decreases v, 1
  {
    match v
    case Arr(items) => OccursItems(items, path, leaf)
    case Obj(fields) => OccursObj(fields, path, leaf)
    case _ => if path == [] && v == leaf then 1 else 0
  }

  function OccursObj(m: Fields, path: seq<string>, leaf: Json): nat
    decreases Obj(m), 0
  {
    if path != [] && path[0] in m then Occurs(m[path[0]], path[1..], leaf) else 0
  }

  function OccursItems(xs: seq<Json>, path: seq<string>, leaf: Json): nat
    decreases xs, 0
  {
    if xs == [] then 0 else OccursItems(xs[..|xs| - 1], path, leaf) + Occurs(xs[|xs| - 1], path, leaf)
  }

  lemma {:induction false} OccursConcat(a: seq<Json>, b: seq<Json>, path: seq<string>, leaf: Json)
    ensures OccursItems(a + b, path, leaf) == OccursItems(a, path, leaf) + OccursItems(b, path, leaf)
  {
    if b == [] {
      assert a + b == a;
    } else {
      OccursConcat(a, b[..|b| - 1], path, leaf);
      assert (a + b)[..|a + b| - 1] == a + b[..|b| - 1];
    }
  }

  lemma {:induction false} FieldKeepsContent(v: Json, path: seq<string>, leaf: Json)
    requires IsContent(leaf)
    ensures Occurs(v, path, leaf) == match PruneField(v) case None => 0 case Some(w) => Occurs(w, path, leaf)
    decreases v, 1
  {
    match v
    case Arr(items) => SliceKeepsContent(items, path, leaf);
    case Obj(fields) => PassKeepsContent(fields, path, leaf);
    case _ =>
  }

  lemma OccursOne(v: Json, path: seq<string>, leaf: Json)
    ensures OccursItems([v], path, leaf) == Occurs(v, path, leaf)
  {
    assert [v][..0] == [];
  }

  lemma {:induction false} ElementKeepsContent(v: Json, path: seq<string>, leaf: Json)
    requires IsContent(leaf)
    ensures OccursItems(PruneElement(v), path, leaf) == Occurs(v, path, leaf)
    decreases v, 1
  {
    match v
    case Arr(items) => SliceKeepsContent(items, path, leaf);
    case Obj(fields) => PassKeepsContent(fields, path, leaf); OccursOne(Obj(PruneObj(fields)), path, leaf);
    case _ => OccursOne(v, path, leaf);
  }

  /** One pass keeps, at every key path, exactly the numbers, booleans and non-empty strings that were
      there, with their multiplicity: none is dropped, moved or invented. */
  lemma {:induction false} PassKeepsContent(m: Fields, path: seq<string>, leaf: Json)
    requires IsContent(leaf)
    ensures OccursObj(PruneObj(m), path, leaf) == OccursObj(m, path, leaf)
    decreases Obj(m), 0
  {
    if path != [] && path[0] in m {
      FieldKeepsContent(m[path[0]], path[1..], leaf);
    }
  }

  lemma {:induction false} SliceKeepsContent(xs: seq<Json>, path: seq<string>, leaf: Json)
    requires IsContent(leaf)
    ensures OccursItems(PruneSlice(xs), path, leaf) == OccursItems(xs, path, leaf)
    decreases xs, 0
  {
    if xs == [] {
    } else {
      SliceKeepsContent(xs[..|xs| - 1], path, leaf);
      ElementKeepsContent(xs[|xs| - 1], path, leaf);
      OccursConcat(PruneSlice(xs[..|xs| - 1]), PruneElement(xs[|xs| - 1]), path, leaf);
    }
  }

  /** The elements of an array in reading order, arrays inside it spliced in. */
  function Flatten(xs: seq<Json>): seq<Json>
  {
    if xs == [] then []
    else
      var last := xs[|xs| - 1];
      Flatten(xs[..|xs| - 1]) + if last.Arr? then Flatten(last.items) else [last]
  }

  lemma {:induction false} FlattenPlain(xs: seq<Json>, i: nat)
    requires i < |Flatten(xs)|
    ensures !Flatten(xs)[i].Arr? && |PruneElement(Flatten(xs)[i])| <= 1
  {
    var front, last := xs[..|xs| - 1], xs[|xs| - 1];
    if i < |Flatten(front)| {
      FlattenPlain(front, i);
    } else if last.Arr? {
      FlattenPlain(last.items, i - |Flatten(front)|);
    }
  }

  /** Order inside an array is kept: the pruned array lists the images of the flattened elements in
      reading order, and each of those gives at most one. */
  lemma {:induction false} SliceKeepsOrder(xs: seq<Json>)
    ensures PruneSlice(xs) == PruneSlice(Flatten(xs))
    ensures forall i :: 0 <= i < |Flatten(xs)| ==> !Flatten(xs)[i].Arr? && |PruneElement(Flatten(xs)[i])| <= 1
  {
    forall i | 0 <= i < |Flatten(xs)| ensures !Flatten(xs)[i].Arr? && |PruneElement(Flatten(xs)[i])| <= 1 {
      FlattenPlain(xs, i);
    }
    PruneFlattened(xs);
  }

  lemma {:induction false} PruneFlattened(xs: seq<Json>)
    ensures PruneSlice(xs) == PruneSlice(Flatten(xs))
  {
    if xs == [] {
    } else {
      var front, last := xs[..|xs| - 1], xs[|xs| - 1];
      PruneFlattened(front);
      if last.Arr? {
        PruneFlattened(last.items);
        PruneSliceConcat(Flatten(front), Flatten(last.items));
      } else {
        PruneSliceConcat(Flatten(front), [last]);
        assert [last][..0] == [];
      }
    }
  }

  // ---------------------------------------------------------------- the status field

  /** Pruning commutes with removing the top-level status, over any number of passes. */
  lemma {:induction false} PruneCommutesWithStatusRemoval(m: Fields, n: nat)
    ensures Passes(m - {"status"}, n) == Passes(m, n) - {"status"}
  {
    if n == 0 {
    } else {
      assert PruneObj(m - {"status"}) == PruneObj(m) - {"status"};
      PruneCommutesWithStatusRemoval(PruneObj(m), n - 1);
    }
  }
}
