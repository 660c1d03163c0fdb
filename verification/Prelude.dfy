/** Small vocabulary shared by the whole project: optional values, the fixed-width
    integers of the Go program, and sums that do not depend on order. */
module Prelude {

  datatype Option<+T> = None | Some(value: T)

  const TWO_31 := 0x8000_0000
  const TWO_32 := 0x1_0000_0000
  const TWO_63 := 0x8000_0000_0000_0000
  const TWO_64 := 0x1_0000_0000_0000_0000

  type int32 = x: int | -TWO_31 <= x < TWO_31
  type int64 = x: int | -TWO_63 <= x < TWO_63

  /** The int32 a Go conversion or overflowing addition yields. */
  function Wrap32(x: int): int32 {
    (x + TWO_31) % TWO_32 - TWO_31
  }

  /** The int64 an overflowing Go addition yields. */
  function Wrap64(x: int): int64 {
    (x + TWO_63) % TWO_64 - TWO_63
  }

  /** Wrapping after every addition is the same as wrapping once at the end. */
  lemma WrapAdd(x: int, y: int)
    ensures Wrap32(Wrap32(x) + y) == Wrap32(x + y)
  {
    var q := (x + TWO_31) / TWO_32;
    assert Wrap32(x) == x - q * TWO_32;
    assert (x + y + TWO_31) % TWO_32 == (x + y + TWO_31 - q * TWO_32) % TWO_32 by {
      ModShift(x + y + TWO_31, q);
    }
  }

  lemma ModShift(a: int, q: int)
    ensures (a - q * TWO_32) % TWO_32 == a % TWO_32
  {
    var r := a / TWO_32;
    assert a - q * TWO_32 == (r - q) * TWO_32 + a % TWO_32;
  }

  /** An int32 counter that went up n times is positive exactly when n mod 2^32 is in 1 .. 2^31 - 1. */
  lemma WrapPositive(n: int)
    ensures Wrap32(n) > 0 <==> 0 < n % TWO_32 < TWO_31
  {
    var r, q := n % TWO_32, n / TWO_32;
    ModShift(n + TWO_31, q);
    assert n + TWO_31 - q * TWO_32 == r + TWO_31;
  }

  predicate Distinct<T(==)>(s: seq<T>) {
    forall i, j :: 0 <= i < j < |s| ==> s[i] != s[j]
  }

  /** s with its i-th element taken out. */
  function Without<T>(s: seq<T>, i: nat): (r: seq<T>)
    requires i < |s|
    ensures |r| == |s| - 1 && forall k :: 0 <= k < |r| ==> r[k] == s[if k < i then k else k + 1]
  {
    s[..i] + s[i + 1..]
  }

  lemma WithoutMultiset<T>(s: seq<T>, i: nat)
    requires i < |s|
    ensures multiset(s) == multiset(Without(s, i)) + multiset{s[i]}
  {
    assert s == s[..i] + [s[i]] + s[i + 1..];
  }

  /** fa and fb list the images of a and b under one function: permuting the arguments permutes
      the images. */
  lemma {:induction false} ImagesPermute<T, U>(a: seq<T>, b: seq<T>, fa: seq<U>, fb: seq<U>)
    requires multiset(a) == multiset(b)
    requires |fa| == |a| && |fb| == |b|
    requires forall i, j :: 0 <= i < |a| && 0 <= j < |b| && a[i] == b[j] ==> fa[i] == fb[j]
    ensures multiset(fa) == multiset(fb)
    decreases |a|
  {
    assert |multiset(a)| == |a| && |multiset(b)| == |b|;
    if |a| == 0 {
      assert fa == fb == [];
    } else {
      assert a[0] in multiset(b);
      var j: nat :| j < |b| && b[j] == a[0];
      RemovePair(a, b, j);
      ImagesPermute(Without(a, 0), Without(b, j), Without(fa, 0), Without(fb, j));
      WithoutMultiset(fa, 0);
      WithoutMultiset(fb, j);
    }
  }

  lemma RemovePair<T>(a: seq<T>, b: seq<T>, j: nat)
    requires multiset(a) == multiset(b) && |a| > 0 && j < |b| && a[0] == b[j]
    ensures multiset(Without(a, 0)) == multiset(Without(b, j))
  {
    WithoutMultiset(a, 0);
    WithoutMultiset(b, j);
    assert multiset(Without(a, 0)) == multiset(a) - multiset{a[0]};
    assert multiset(Without(b, j)) == multiset(b) - multiset{a[0]};
  }

  /** Two duplicate-free lists of the same elements are permutations of each other. */
  lemma DistinctSameElements<T>(a: seq<T>, b: seq<T>)
    requires Distinct(a) && Distinct(b)
    requires forall x :: x in a <==> x in b
    ensures multiset(a) == multiset(b)
  {
    forall x ensures multiset(a)[x] == multiset(b)[x] {
      DistinctMultiplicity(a, x);
      DistinctMultiplicity(b, x);
    }
  }

  lemma {:induction false} DistinctMultiplicity<T>(s: seq<T>, x: T)
    requires Distinct(s)
    ensures multiset(s)[x] == if x in s then 1 else 0
  {
    if s == [] {
    } else {
      DistinctMultiplicity(s[1..], x);
      assert s == [s[0]] + s[1..];
    }
  }

  // ---------------------------------------------------------------- int32 totals

  /** Go's int32 addition. */
  function Add32(a: int32, b: int32): int32 {
    var s := a as int + b;
    if s >= TWO_31 then s - TWO_32 else if s < -TWO_31 then s + TWO_32 else s
  }

  function Sum(xs: seq<int>): int {
    if xs == [] then 0 else Sum(xs[..|xs| - 1]) + xs[|xs| - 1]
  }

  /** The running int32 total. */
  function Total32(xs: seq<int32>): int32 {
    if xs == [] then 0 else Add32(Total32(xs[..|xs| - 1]), xs[|xs| - 1])
  }

  lemma Add32Wraps(a: int32, b: int32)
    ensures Add32(a, b) == Wrap32(a + b)
  {
  }

  /** Whatever overflows on the way, a running int32 total is the sum modulo 2^32. */
  lemma {:induction false} Total32IsSum(xs: seq<int32>)
    ensures Total32(xs) == Wrap32(Sum(xs))
  {
    if xs == [] {
    } else {
      var front, last := xs[..|xs| - 1], xs[|xs| - 1];
      Total32IsSum(front);
      Add32Wraps(Total32(front), last);
      WrapAdd(Sum(front), last);
    }
  }

  lemma {:induction false} SumWithout(xs: seq<int>, j: nat)
    requires j < |xs|
    ensures Sum(xs) == Sum(Without(xs, j)) + xs[j]
  {
    var front := xs[..|xs| - 1];
    if j == |xs| - 1 {
      assert Without(xs, j) == front;
    } else {
      SumWithout(front, j);
      assert Without(xs, j)[..|xs| - 2] == Without(front, j);
    }
  }

  lemma {:induction false} SumPermutes(a: seq<int>, b: seq<int>)
    requires multiset(a) == multiset(b)
    ensures Sum(a) == Sum(b)
    decreases |a|
  {
    assert |a| == |multiset(a)| == |b|;
    if a == [] {
    } else {
      assert a[0] in multiset(b);
      var j: nat :| j < |b| && b[j] == a[0];
      RemovePair(a, b, j);
      SumPermutes(Without(a, 0), Without(b, j));
      SumWithout(a, 0);
      SumWithout(b, j);
    }
  }
}
