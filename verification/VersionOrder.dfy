/** When does the reported version depend on the order in which the clusters answer? Canonical
    versions never do (Version.MergeAllIsUnion); here is the exact condition for all strings. */
module VersionOrder {
  import opened Prelude
  import opened Version

  /** The tokens the last merge sees when vs[i] is the last version to arrive. */
  ghost function LastTokens(vs: seq<string>, i: nat): set<string>
    requires i < |vs|
  {
    Tokens(AllNumbers(Without(vs, i))) + TokenSet(vs[i])
  }

  /** The ways a number is written in a set of tokens. */
  ghost function Spellings(m: set<string>, n: int): set<string> {
    set t | t in m && Value(t) as int == n
  }

  lemma InsertCount(x: int, s: seq<int>, n: int)
    ensures multiset(Insert(x, s))[n] == multiset(s)[n] + if x == n then 1 else 0
  {
    InsertMultiset(x, s);
  }

  lemma SpellingsWithout(m: set<string>, t: string, n: int)
    requires t in m
    ensures |Spellings(m, n)| == |Spellings(m - {t}, n)| + if Value(t) as int == n then 1 else 0
  {
    if Value(t) as int == n {
      assert Spellings(m, n) == Spellings(m - {t}, n) + {t};
    } else {
      assert Spellings(m, n) == Spellings(m - {t}, n);
    }
  }

  /** The sorted list holds a number once for every spelling of it. */
  lemma {:induction false} SpellingsCount(m: set<string>, n: int)
    ensures multiset(SortedValues(m))[n] == |Spellings(m, n)|
  {
    if m == {} {
    } else {
      var t :| t in m && SortedValues(m) == Insert(Value(t), SortedValues(m - {t}));
      SpellingsCount(m - {t}, n);
      InsertCount(Value(t), SortedValues(m - {t}), n);
      SpellingsWithout(m, t, n);
    }
  }

  lemma {:induction false} AscendingUnique(a: seq<int>, b: seq<int>)
    requires Ascending(a) && Ascending(b) && multiset(a) == multiset(b)
    ensures a == b
  {
    assert |a| == |multiset(a)| == |b|;
    if a == [] {
    } else {
      SameLeast(a, b);
      RemovePair(a, b, 0);
      var a', b' := Without(a, 0), Without(b, 0);
      AscendingUnique(a', b');
      assert forall k :: 1 <= k < |a| ==> a[k] == a'[k - 1] && b[k] == b'[k - 1];
    }
  }

  lemma SameLeast(a: seq<int>, b: seq<int>)
    requires Ascending(a) && Ascending(b) && multiset(a) == multiset(b) && a != [] && b != []
    ensures a[0] == b[0]
  {
    assert a[0] in multiset(b) && b[0] in multiset(a);
  }

  /** As many spellings for every number. */
  ghost predicate SameSpellings(m1: set<string>, m2: set<string>) {
    forall n :: |Spellings(m1, n)| == |Spellings(m2, n)|
  }

  /** The print tells how many spellings each number had, and nothing else. */
  lemma SameSortedIff(m1: set<string>, m2: set<string>)
    ensures SortedValues(m1) == SortedValues(m2) <==> SameSpellings(m1, m2)
  {
    if SortedValues(m1) == SortedValues(m2) {
      forall n ensures |Spellings(m1, n)| == |Spellings(m2, n)| {
        SpellingsCount(m1, n);
        SpellingsCount(m2, n);
      }
    }
    if SameSpellings(m1, m2) {
      var a, b := SortedValues(m1), SortedValues(m2);
      forall n ensures multiset(a)[n] == multiset(b)[n] {
        SpellingsCount(m1, n);
        SpellingsCount(m2, n);
      }
      SortedValuesAscending(m1);
      SortedValuesAscending(m2);
      AscendingUnique(a, b);
    }
  }

  /** A printed list of machine integers determines the list. */
  lemma RenderInjective(a: seq<int>, b: seq<int>)
    requires MachineInts(Elements(a)) && MachineInts(Elements(b)) && Render(a) == Render(b)
    ensures a == b
  {
    RenderJoined(a);
    RenderJoined(b);
    if a != [] { SplitJoined(a); JoinedShape(a); }
    if b != [] { SplitJoined(b); JoinedShape(b); }
    assert TokenList(a) == TokenList(b);
    forall i | 0 <= i < |a| ensures a[i] == b[i] {
      assert a[i] in Elements(a) && b[i] in Elements(b);
      ValueToken(a[i]);
      ValueToken(b[i]);
    }
  }

  lemma MergeAllByLast(vs: seq<string>, ys: seq<string>, i: nat)
    requires i < |vs| && |ys| > 0 && ys[|ys| - 1] == vs[i] && multiset(ys[..|ys| - 1]) == multiset(Without(vs, i))
    ensures MergeAll(ys) == Render(SortedValues(LastTokens(vs, i)))
  {
    var front := ys[..|ys| - 1];
    MergeAllNumbers(front);
    CanonicalTokens(MergeAll(front));
    forall v ensures v in front <==> v in Without(vs, i) {
      assert v in front <==> v in multiset(front);
      assert v in Without(vs, i) <==> v in multiset(Without(vs, i));
    }
    assert AllNumbers(front) == AllNumbers(Without(vs, i));
  }

  /** The version with vs[i] arriving last; it is one of the arrival orders. */
  lemma ArrivesLast(vs: seq<string>, i: nat) returns (ys: seq<string>)
    requires i < |vs|
    ensures multiset(ys) == multiset(vs) && MergeAll(ys) == Render(SortedValues(LastTokens(vs, i)))
  {
    ys := Without(vs, i) + [vs[i]];
    WithoutMultiset(vs, i);
    assert ys[..|ys| - 1] == Without(vs, i);
    MergeAllByLast(vs, ys, i);
  }

  /** Every arrival order has some vs[i] last. */
  lemma SomeArrivesLast(vs: seq<string>, ys: seq<string>) returns (i: nat)
    requires multiset(ys) == multiset(vs) && vs != []
    ensures i < |vs| && MergeAll(ys) == Render(SortedValues(LastTokens(vs, i)))
  {
    assert |multiset(ys)| == |ys| && |multiset(vs)| == |vs|;
    assert ys[|ys| - 1] in multiset(vs);
    i :| 0 <= i < |vs| && vs[i] == ys[|ys| - 1];
    RemoveLast(vs, ys, i);
    MergeAllByLast(vs, ys, i);
  }

  lemma RemoveLast(vs: seq<string>, ys: seq<string>, i: nat)
    requires multiset(ys) == multiset(vs) && i < |vs| && |ys| > 0 && ys[|ys| - 1] == vs[i]
    ensures multiset(ys[..|ys| - 1]) == multiset(Without(vs, i))
  {
    var front, rest := ys[..|ys| - 1], Without(vs, i);
    WithoutMultiset(vs, i);
    assert ys == front + [vs[i]];
    assert multiset(front) + multiset{vs[i]} == multiset(rest) + multiset{vs[i]};
    assert multiset(front) == multiset(front) + multiset{vs[i]} - multiset{vs[i]};
  }

  lemma LastTokensMachine(vs: seq<string>, i: nat)
    requires i < |vs|
    ensures MachineInts(Elements(SortedValues(LastTokens(vs, i))))
  {
    SortedValuesElements(LastTokens(vs, i));
  }

  ghost predicate OrderIndependent(vs: seq<string>) {
    forall ys :: multiset(ys) == multiset(vs) ==> MergeAll(ys) == MergeAll(vs)
  }

  /** Whichever string is merged last, every number is written in the same number of ways by that
      string together with the canonical spellings of what the others mention. */
  ghost predicate LastDoesNotMatter(vs: seq<string>) {
    forall i, j :: 0 <= i < |vs| && 0 <= j < |vs| ==> SameSpellings(LastTokens(vs, i), LastTokens(vs, j))
  }

  lemma OrderIndependentOnlyIf(vs: seq<string>, i: nat, j: nat)
    requires OrderIndependent(vs) && i < |vs| && j < |vs|
    ensures SameSpellings(LastTokens(vs, i), LastTokens(vs, j))
  {
    var yi := ArrivesLast(vs, i);
    var yj := ArrivesLast(vs, j);
    assert MergeAll(yi) == MergeAll(vs) == MergeAll(yj);
    LastTokensMachine(vs, i);
    LastTokensMachine(vs, j);
    RenderInjective(SortedValues(LastTokens(vs, i)), SortedValues(LastTokens(vs, j)));
    SameSortedIff(LastTokens(vs, i), LastTokens(vs, j));
  }

  lemma OrderIndependentIfOne(vs: seq<string>, ys: seq<string>)
    requires LastDoesNotMatter(vs) && multiset(ys) == multiset(vs)
    ensures MergeAll(ys) == MergeAll(vs)
  {
    if vs == [] {
      assert |multiset(ys)| == |ys| == 0;
    } else {
      var i := SomeArrivesLast(vs, ys);
      var j := SomeArrivesLast(vs, vs);
      SameSortedIff(LastTokens(vs, i), LastTokens(vs, j));
    }
  }

  /** For arbitrary strings the accumulated version is independent of the order of arrival exactly
      when it does not matter which string arrives last. */
  lemma OrderIndependentIff(vs: seq<string>)
    ensures OrderIndependent(vs) <==> LastDoesNotMatter(vs)
  {
    if OrderIndependent(vs) {
      forall i, j | 0 <= i < |vs| && 0 <= j < |vs| ensures SameSpellings(LastTokens(vs, i), LastTokens(vs, j)) {
        OrderIndependentOnlyIf(vs, i, j);
      }
    }
    if LastDoesNotMatter(vs) {
      forall ys | multiset(ys) == multiset(vs) ensures MergeAll(ys) == MergeAll(vs) {
        OrderIndependentIfOne(vs, ys);
      }
    }
  }

  // ---------------------------------------------------------------- exact laws of one merge

  /** Two sets of tokens print alike exactly when every number is spelled equally often in both. */
  lemma RenderSameIff(m1: set<string>, m2: set<string>)
    ensures Render(SortedValues(m1)) == Render(SortedValues(m2)) <==> SameSpellings(m1, m2)
  {
    SameSortedIff(m1, m2);
    if Render(SortedValues(m1)) == Render(SortedValues(m2)) {
      SortedValuesElements(m1);
      SortedValuesElements(m2);
      RenderInjective(SortedValues(m1), SortedValues(m2));
    }
  }

  /** No number is spelled in two ways. */
  ghost predicate OneSpellingEach(m: set<string>) {
    forall t, u :: t in m && u in m && Value(t) == Value(u) ==> t == u
  }

  lemma CanonicalSpellings(a: set<int>, n: int)
    requires MachineInts(a)
    ensures Spellings(Tokens(a), n) == if n in a then {Token(n)} else {}
  {
    forall t | t in Spellings(Tokens(a), n) ensures n in a && t == Token(n) {
      var k :| k in a && t == Token(k);
      ValueToken(k);
    }
    if n in a {
      ValueToken(n);
      assert Token(n) in Tokens(a);
    }
  }

  lemma OneSpellingCount(m: set<string>, n: int)
    requires OneSpellingEach(m)
    ensures |Spellings(m, n)| == if n in Values(m) then 1 else 0
  {
    var s := Spellings(m, n);
    if n in Values(m) {
      var t :| t in m && n == Value(t) as int;
      assert s == {t};
    } else {
      assert forall t :: t in m ==> Value(t) as int in Values(m);
      assert s == {};
    }
  }

  lemma SpelledOnce(m: set<string>, t: string, u: string)
    requires t in m && u in m && Value(t) == Value(u) && |Spellings(m, Value(t))| == 1
    ensures t == u
  {
    var s := Spellings(m, Value(t));
    assert t in s && u in s;
    assert |s - {t}| == 0;
    assert u !in s - {t};
  }

  /** Printing canonically keeps every count exactly when no number has two spellings. */
  lemma CanonicalSameIff(m: set<string>)
    ensures SameSpellings(m, Tokens(Values(m))) <==> OneSpellingEach(m)
  {
    var a := Values(m);
    if SameSpellings(m, Tokens(a)) {
      forall t, u | t in m && u in m && Value(t) == Value(u) ensures t == u {
        assert Value(t) as int in a;
        CanonicalSpellings(a, Value(t));
        assert |Spellings(m, Value(t))| == |Spellings(Tokens(a), Value(t))|;
        SpelledOnce(m, t, u);
      }
    }
    if OneSpellingEach(m) {
      forall n ensures |Spellings(m, n)| == |Spellings(Tokens(a), n)| {
        OneSpellingCount(m, n);
        CanonicalSpellings(a, n);
      }
    }
  }

  /** For all strings: one merge already yields a fixed point of further merging exactly when the two
      arguments together spell no number in two ways. */
  lemma OneApplicationIff(v1: string, v2: string)
    ensures Merged("", Merged(v1, v2)) == Merged(v1, v2) <==> OneSpellingEach(TokenSet(v1) + TokenSet(v2))
  {
    var m := TokenSet(v1) + TokenSet(v2);
    EmptyVersion();
    MergedNumbers(v1, v2);
    assert Values(m) == Numbers(v1) + Numbers(v2);
    assert {} + Tokens(Values(m)) == Tokens(Values(m));
    RenderSameIff(Tokens(Values(m)), m);
    CanonicalSameIff(m);
  }

  /** For all strings: merging is associative exactly when the first and the last argument, each next to
      the canonical spellings of the rest, spell every number equally often. */
  lemma MergeAssociatesIff(v1: string, v2: string, v3: string)
    ensures Merged(Merged(v1, v2), v3) == Merged(v1, Merged(v2, v3))
       <==> SameSpellings(Tokens(Numbers(v1) + Numbers(v2)) + TokenSet(v3),
                          TokenSet(v1) + Tokens(Numbers(v2) + Numbers(v3)))
  {
    MergedNumbers(v1, v2);
    MergedNumbers(v2, v3);
    RenderSameIff(Tokens(Numbers(v1) + Numbers(v2)) + TokenSet(v3), TokenSet(v1) + Tokens(Numbers(v2) + Numbers(v3)));
  }

  // ---------------------------------------------------------------- a pair of versions for which the order shows

  lemma TokensOfOne()
    ensures TokenSet("1") == {"1"} && TokenSet("v1") == {"v1"} && TokenSet("") == {}
    ensures Render(SortedValues({"1"})) == "v1" && Render(SortedValues({"v1"})) == "v1"
  {
    SplitPlain("1");
    SplitPlain("v1");
    assert Split("1") == ["1"] && Split("v1") == ["v1"] && Split("") == [""];
    assert TrimSpace("1") == "1" && TrimSpace("v1") == "v1";
    assert Digits(1) == "1" && Token(1) == "v1" && Itoa(1) == "1";
    assert DropFront("1", IsV) == "1";
    AtoiItoa(1);
    ValueToken(1);
    SortedValuesTake({"1"}, "1");
    SortedValuesTake({"v1"}, "v1");
    assert {"1"} - {"1"} == {} && {"v1"} - {"v1"} == {};
    RenderJoined([1]);
  }

  lemma TwoArrivals(first: string, second: string)
    ensures MergeAll([first, second]) == Merged(Merged("", first), second)
  {
    assert [first, second][..1] == [first] && [first][..0] == [];
    assert MergeAll([]) == "";
    assert MergeAll([first]) == Merged("", first);
  }

  lemma MergedTokens(v1: string, v2: string)
    requires TokenSet(v1) == {v1} && TokenSet(v2) == {v2}
    ensures Merged(v1, v2) == Render(SortedValues({v1, v2}))
  {
    assert TokenSet(v1) + TokenSet(v2) == {v1, v2};
  }

  lemma ArrivesSecond(first: string, second: string)
    requires TokenSet("") == {} && TokenSet(first) == {first}
    ensures MergeAll([first, second]) == Merged(Render(SortedValues({first})), second)
  {
    TwoArrivals(first, second);
    assert TokenSet("") + TokenSet(first) == {first};
  }

  /** A token, and another spelling of its number that prints as the token: arriving last the spelling stays. */
  lemma SpellingArrivesLast(token: string, other: string)
    requires TokenSet("") == {} && TokenSet(token) == {token} && TokenSet(other) == {other}
    requires Render(SortedValues({token})) == token
    ensures MergeAll([token, other]) == Render(SortedValues({other, token}))
  {
    ArrivesSecond(token, other);
    MergedTokens(token, other);
    assert {token, other} == {other, token};
  }

  /** Arriving first it is rewritten. */
  lemma SpellingArrivesFirst(token: string, other: string)
    requires TokenSet("") == {} && TokenSet(token) == {token} && TokenSet(other) == {other}
    requires Render(SortedValues({token})) == token == Render(SortedValues({other}))
    ensures MergeAll([other, token]) == token
  {
    ArrivesSecond(other, token);
    MergedTokens(token, token);
    assert {token, token} == {token};
  }

  /** "v1" and "1": arriving last, "1" adds a second spelling; arriving first, it has been rewritten. */
  lemma OrderShows(token: string, other: string)
    requires token == "v1" && other == "1"
    ensures MergeAll([token, other]) != MergeAll([other, token])
  {
    TokensOfOne();
    TwoSpellings();
    SpellingArrivesLast(token, other);
    SpellingArrivesFirst(token, other);
    assert |MergeAll([token, other])| == 5;
  }
}
