/** Version strings: `mergeVersion` parses two "/"-separated lists of tokens like `v12`, unites the
    tokens, sorts them as numbers and prints them again. Strings are sequences of code points. */
module Version {
  import opened Prelude

  const SEP := '/'

  // ---------------------------------------------------------------- the string functions used

  /** Unicode white space, as strings.TrimSpace removes it. */
  predicate IsSpace(c: char) {
    var x := c as int;
    9 <= x <= 13 || x in {0x20, 0x85, 0xA0, 0x1680, 0x2028, 0x2029, 0x202F, 0x205F, 0x3000} || 0x2000 <= x <= 0x200A
  }

  function DropFront(s: string, cut: char -> bool): string {
    if s != "" && cut(s[0]) then DropFront(s[1..], cut) else s
  }

  function DropBack(s: string, cut: char -> bool): string {
    if s != "" && cut(s[|s| - 1]) then DropBack(s[..|s| - 1], cut) else s
  }

  function TrimSpace(s: string): string { DropBack(DropFront(s, IsSpace), IsSpace) }

  predicate IsSep(c: char) { c == SEP }

  predicate IsV(c: char) { c == 'v' }

  function TrimSep(s: string): string { DropBack(DropFront(s, IsSep), IsSep) }

  /** strings.Split(s, "/"): the pieces between separators, at least one. */
  function Split(s: string): (r: seq<string>)
    ensures |r| > 0
  {
    if s == "" then [""]
    else
      var rest := Split(s[1..]);
      if s[0] == SEP then [""] + rest else [[s[0]] + rest[0]] + rest[1..]
  }

  // ---------------------------------------------------------------- numbers

  predicate IsDigit(c: char) { '0' <= c <= '9' }

  function DigitChar(d: nat): (c: char)
    requires d < 10
    ensures IsDigit(c) && c as int - '0' as int == d
  {
    ('0' as int + d) as char
  }

  function Digits(n: nat): (s: string)
    ensures s != "" && forall i :: 0 <= i < |s| ==> IsDigit(s[i])
  {
    if n < 10 then [DigitChar(n)] else Digits(n / 10) + [DigitChar(n % 10)]
  }

  /** fmt's %d. */
  function Itoa(n: int): string { if n < 0 then "-" + Digits(-n) else Digits(n) }

  /** strconv's digit loop in uint64: it stops at the first non-digit with a syntax error (None) and
      at the first overflow with the largest uint64, whichever comes first. */
  function ParseUint(s: string, acc: nat): Option<nat> {
    if s == "" then Some(acc)
    else if !IsDigit(s[0]) then None
    else
      var n := acc * 10 + (s[0] as int - '0' as int);
      if n >= TWO_64 then Some(TWO_64 - 1) else ParseUint(s[1..], n)
  }

  /** The value `i, _ := strconv.Atoi(s)` leaves in i: 0 after a syntax error, clamped after an overflow. */
  function Atoi(s: string): int64 {
    var neg := s != "" && s[0] == '-';
    var body := if s != "" && (s[0] == '-' || s[0] == '+') then s[1..] else s;
    if body == "" then 0
    else
      match ParseUint(body, 0)
      case None => 0
      case Some(u) =>
        if neg then (if u > TWO_63 then -TWO_63 else -(u as int))
        else (if u >= TWO_63 then TWO_63 - 1 else u)
  }

  /** The number a token stands for. */
  function Value(token: string): int64 { Atoi(DropFront(token, IsV)) }

  /** The token a number is printed as. */
  function Token(n: int): string { "v" + Itoa(n) }

  // ---------------------------------------------------------------- sort.Ints

  predicate Ascending(s: seq<int>) { forall i, j :: 0 <= i < j < |s| ==> s[i] <= s[j] }

  predicate StrictlyAscending(s: seq<int>) { forall i, j :: 0 <= i < j < |s| ==> s[i] < s[j] }

  function Insert(x: int, s: seq<int>): seq<int> {
    if s == [] || x <= s[0] then [x] + s else [s[0]] + Insert(x, s[1..])
  }

  /** sort.Ints. */
  function SortInts(s: seq<int>): seq<int> {
    if s == [] then [] else Insert(s[|s| - 1], SortInts(s[..|s| - 1]))
  }

  lemma {:induction false} InsertMultiset(x: int, s: seq<int>)
    ensures multiset(Insert(x, s)) == multiset(s) + multiset{x}
  {
    if s == [] || x <= s[0] {
    } else {
      InsertMultiset(x, s[1..]);
      assert s == [s[0]] + s[1..];
    }
  }

  lemma {:induction false} InsertSorts(x: int, s: seq<int>)
    requires Ascending(s)
    ensures Ascending(Insert(x, s)) && |Insert(x, s)| == |s| + 1
    ensures Insert(x, s)[0] == if s == [] || x <= s[0] then x else s[0]
  {
    if s == [] || x <= s[0] {
    } else {
      InsertSorts(x, s[1..]);
    }
  }

  /** SortInts is a sort: its result is ascending and a permutation of its argument. */
  lemma {:induction false} SortIntsAscends(s: seq<int>)
    ensures Ascending(SortInts(s))
  {
    if s == [] {
    } else {
      SortIntsAscends(s[..|s| - 1]);
      InsertSorts(s[|s| - 1], SortInts(s[..|s| - 1]));
    }
  }

  lemma {:induction false} SortIntsPermutes(s: seq<int>)
    ensures multiset(SortInts(s)) == multiset(s)
  {
    if s == [] {
    } else {
      var front, last := s[..|s| - 1], s[|s| - 1];
      SortIntsPermutes(front);
      InsertMultiset(last, SortInts(front));
      assert s == front + [last];
    }
  }

  lemma {:induction false} InsertCommutes(x: int, y: int, s: seq<int>)
    requires Ascending(s)
    ensures Insert(x, Insert(y, s)) == Insert(y, Insert(x, s))
  {
    if s == [] || x <= s[0] || y <= s[0] {
    } else {
      InsertCommutes(x, y, s[1..]);
    }
  }

  // ---------------------------------------------------------------- what mergeVersion computes

  /** The set the method collects from one string. */
  ghost function TokenSet(v: string): set<string> {
    set t | t in Split(TrimSpace(v)) && t != ""
  }

  /** The numbers of a set of tokens in ascending order, one entry for every token. */
  ghost function SortedValues(m: set<string>): seq<int> {
    if m == {} then []
    else
      var t :| t in m;
      Insert(Value(t), SortedValues(m - {t}))
  }

  function PrintAll(ns: seq<int>): string {
    if ns == [] then "" else PrintAll(ns[..|ns| - 1]) + [SEP] + Token(ns[|ns| - 1])
  }

  function Render(ns: seq<int>): string { TrimSep(PrintAll(ns)) }

  ghost function Merged(v1: string, v2: string): string {
    Render(SortedValues(TokenSet(v1) + TokenSet(v2)))
  }

  lemma {:induction false} SortedValuesAscending(m: set<string>)
    ensures Ascending(SortedValues(m))
  {
    if m == {} {
    } else {
      var t :| t in m && SortedValues(m) == Insert(Value(t), SortedValues(m - {t}));
      SortedValuesAscending(m - {t});
      InsertSorts(Value(t), SortedValues(m - {t}));
    }
  }

  /** The order in which the tokens are taken (Go's random map order) does not matter. */
  lemma {:induction false} SortedValuesTake(m: set<string>, t: string)
    requires t in m
    ensures SortedValues(m) == Insert(Value(t), SortedValues(m - {t}))
    decreases m
  {
    var u :| u in m && SortedValues(m) == Insert(Value(u), SortedValues(m - {u}));
    if u != t {
      SortedValuesTake(m - {u}, t);
      SortedValuesTake(m - {t}, u);
      assert m - {u} - {t} == m - {t} - {u};
      SortedValuesAscending(m - {u} - {t});
      InsertCommutes(Value(u), Value(t), SortedValues(m - {u} - {t}));
    }
  }

  /** The loop over the pieces of one string: every non-empty piece enters the set. */
  method Collect(pieces: seq<string>, m0: set<string>) returns (m: set<string>)
    ensures m == m0 + set t | t in pieces && t != ""
  {
    m := m0;
    for i := 0 to |pieces|
      invariant m == m0 + set t | t in pieces[..i] && t != ""
    {
      if pieces[i] == "" { continue; }
      m := m + {pieces[i]};
    }
    assert pieces[..|pieces|] == pieces;
  }

  /** The loop over the set, in any order, then sort.Ints. */
  method SortedNumbers(m: set<string>) returns (sorted: seq<int>)
    ensures sorted == SortedValues(m)
  {
    var s: seq<int>, rest := [], m;
    while rest != {}
      invariant rest <= m
      invariant SortInts(s) == SortedValues(m - rest)
    {
      var k :| k in rest;
      SortedValuesTake(m - (rest - {k}), k);
      assert m - (rest - {k}) - {k} == m - rest;
      assert (s + [Value(k)])[..|s|] == s;
      s := s + [Value(k)];
      rest := rest - {k};
    }
    assert m - rest == m;
    sorted := SortInts(s);
  }

  method MergeVersion(v1: string, v2: string) returns (r: string)
    ensures r == Merged(v1, v2)
  {
    var m := Collect(Split(TrimSpace(v1)), {});
    m := Collect(Split(TrimSpace(v2)), m);
    assert m == TokenSet(v1) + TokenSet(v2);
    var s := SortedNumbers(m);
    r := Print(s);
  }

  /** The printing loop, and the final trim of the separators. */
  method Print(s: seq<int>) returns (r: string)
    ensures r == Render(s)
  {
    r := "";
    for i := 0 to |s|
      invariant r == PrintAll(s[..i])
    {
      assert s[..i + 1][..i] == s[..i];
      r := r + [SEP] + Token(s[i]);
    }
    assert s[..|s|] == s;
    r := TrimSep(r);
  }

  // ---------------------------------------------------------------- decimal round trip

  predicate AllDigits(s: string) { forall i :: 0 <= i < |s| ==> IsDigit(s[i]) }

  function Decimal(s: string, acc: nat): nat
    requires AllDigits(s)
  {
    if s == "" then acc else Decimal(s[1..], acc * 10 + (s[0] as int - '0' as int))
  }

  lemma {:induction false} DecimalGrows(s: string, acc: nat)
    requires AllDigits(s)
    ensures Decimal(s, acc) >= acc
  {
    if s == "" {
    } else {
      DecimalGrows(s[1..], acc * 10 + (s[0] as int - '0' as int));
    }
  }

  lemma {:induction false} ParseUintDecimal(s: string, acc: nat)
    requires AllDigits(s) && acc < TWO_64
    ensures ParseUint(s, acc) == Some(if Decimal(s, acc) < TWO_64 then Decimal(s, acc) else TWO_64 - 1)
  {
    if s == "" {
    } else {
      var n := acc * 10 + (s[0] as int - '0' as int);
      if n >= TWO_64 { DecimalGrows(s[1..], n); } else { ParseUintDecimal(s[1..], n); }
    }
  }

  lemma {:induction false} DecimalSnoc(s: string, c: char, acc: nat)
    requires AllDigits(s) && IsDigit(c)
    ensures AllDigits(s + [c]) && Decimal(s + [c], acc) == Decimal(s, acc) * 10 + (c as int - '0' as int)
  {
    if s == "" {
      assert Decimal([c], acc) == Decimal([c][1..], acc * 10 + (c as int - '0' as int));
    } else {
      DecimalSnoc(s[1..], c, acc * 10 + (s[0] as int - '0' as int));
      assert (s + [c])[1..] == s[1..] + [c];
    }
  }

  lemma {:induction false} DecimalDigits(n: nat)
    ensures Decimal(Digits(n), 0) == n
  {
    if n < 10 {
      DecimalSnoc("", DigitChar(n), 0);
      assert "" + [DigitChar(n)] == Digits(n);
    } else {
      DecimalDigits(n / 10);
      DecimalSnoc(Digits(n / 10), DigitChar(n % 10), 0);
    }
  }

  /** Reading a printed number gives it back. */
  lemma AtoiItoa(n: int64)
    ensures Atoi(Itoa(n)) == n
  {
    var k: nat := if n < 0 then -(n as int) else n as int;
    DecimalDigits(k);
    ParseUintDecimal(Digits(k), 0);
    if n < 0 { assert Itoa(n)[1..] == Digits(k); }
  }

  lemma ValueToken(n: int64)
    ensures Value(Token(n)) == n
  {
    assert Token(n)[1..] == Itoa(n);
    assert DropFront(Token(n), IsV) == DropFront(Itoa(n), IsV) == Itoa(n);
    AtoiItoa(n);
  }

  // ---------------------------------------------------------------- print and re-read a list

  function Joined(ns: seq<int>): string
    requires ns != []
  {
    if |ns| == 1 then Token(ns[0]) else Joined(ns[..|ns| - 1]) + [SEP] + Token(ns[|ns| - 1])
  }

  lemma TokenShape(n: int)
    ensures |Token(n)| >= 2 && Token(n)[0] == 'v' && IsDigit(Token(n)[|Token(n)| - 1])
    ensures SEP !in Token(n)
  {
    var d := Digits(if n < 0 then -n else n);
    assert Token(n) == (if n < 0 then "v-" else "v") + d;
    assert forall i :: 0 <= i < |d| ==> d[i] != SEP;
  }

  lemma {:induction false} JoinedShape(ns: seq<int>)
    requires ns != []
    ensures var s := Joined(ns); |s| >= 2 && s[0] == 'v' && IsDigit(s[|s| - 1])
  {
    TokenShape(ns[|ns| - 1]);
    if |ns| == 1 {
    } else {
      JoinedShape(ns[..|ns| - 1]);
    }
  }

  lemma Regroup(a: string, b: string, c: string, d: string)
    ensures (a + b) + c + d == a + (b + c + d)
  {
  }

  lemma {:induction false} PrintAllJoined(ns: seq<int>)
    requires ns != []
    ensures PrintAll(ns) == [SEP] + Joined(ns)
  {
    var front, last := ns[..|ns| - 1], Token(ns[|ns| - 1]);
    if |ns| == 1 {
      assert PrintAll(front) == "";
    } else {
      PrintAllJoined(front);
      Regroup([SEP], Joined(front), [SEP], last);
    }
  }

  lemma DropBackNone(s: string, cut: char -> bool)
    requires s != "" && !cut(s[|s| - 1])
    ensures DropBack(s, cut) == s
  {
  }

  /** Trimming the separators leaves the joined tokens, and trimming white space then changes nothing. */
  lemma RenderJoined(ns: seq<int>)
    ensures Render(ns) == if ns == [] then "" else Joined(ns)
    ensures TrimSpace(Render(ns)) == Render(ns)
  {
    if ns != [] {
      JoinedShape(ns);
      PrintAllJoined(ns);
      var s := Joined(ns);
      assert ([SEP] + s)[1..] == s;
      assert DropFront(PrintAll(ns), IsSep) == DropFront(s, IsSep) == s;
      DropBackNone(s, IsSep);
      assert DropFront(s, IsSpace) == s;
      DropBackNone(s, IsSpace);
    }
  }

  lemma {:induction false} SplitPlain(s: string)
    requires SEP !in s
    ensures Split(s) == [s]
  {
    if s == "" {
    } else {
      assert s[0] in s && forall c :: c in s[1..] ==> c in s;
      assert [s[0]] + s[1..] == s;
      SplitPlain(s[1..]);
    }
  }

  lemma {:induction false} SplitSnoc(s: string, t: string)
    requires SEP !in t
    ensures Split(s + [SEP] + t) == Split(s) + [t]
  {
    var st := s + [SEP] + t;
    if s == "" {
      assert st[1..] == t;
      SplitPlain(t);
    } else {
      SplitSnoc(s[1..], t);
      assert st[1..] == s[1..] + [SEP] + t;
    }
  }

  function TokenList(ns: seq<int>): (r: seq<string>)
    ensures |r| == |ns| && forall i :: 0 <= i < |ns| ==> r[i] == Token(ns[i])
  {
    seq(|ns|, i requires 0 <= i < |ns| => Token(ns[i]))
  }

  lemma {:induction false} SplitJoined(ns: seq<int>)
    requires ns != []
    ensures Split(Joined(ns)) == TokenList(ns)
  {
    var front, last := ns[..|ns| - 1], Token(ns[|ns| - 1]);
    TokenShape(ns[|ns| - 1]);
    assert TokenList(ns) == TokenList(front) + [last];
    if |ns| == 1 {
      SplitPlain(last);
    } else {
      SplitJoined(front);
      SplitSnoc(Joined(front), last);
    }
  }

  ghost function Tokens(a: set<int>): set<string> {
    set n | n in a :: Token(n)
  }

  ghost function Elements(ns: seq<int>): set<int> {
    set n | n in ns
  }

  lemma TokenListSet(ns: seq<int>)
    ensures (set t | t in TokenList(ns) && t != "") == Tokens(Elements(ns))
  {
    var p := TokenList(ns);
    forall t | t in p ensures t in Tokens(Elements(ns)) {
      var i :| 0 <= i < |p| && p[i] == t;
      assert ns[i] in Elements(ns);
    }
    forall t | t in Tokens(Elements(ns)) ensures t in p && t != "" {
      var n :| n in ns && t == Token(n);
      var i :| 0 <= i < |ns| && ns[i] == n;
      assert p[i] == t;
    }
  }

  /** Reading a printed list finds exactly the tokens of its numbers. */
  lemma TokenSetRender(ns: seq<int>)
    ensures TokenSet(Render(ns)) == Tokens(Elements(ns))
  {
    RenderJoined(ns);
    if ns == [] {
      assert Split("") == [""];
    } else {
      SplitJoined(ns);
      TokenListSet(ns);
    }
  }

  // ---------------------------------------------------------------- mergeVersion is set union

  /** The numbers a set of tokens, and a version string, mention. */
  ghost function Values(m: set<string>): set<int> {
    set t | t in m :: Value(t) as int
  }

  ghost function Numbers(v: string): set<int> { Values(TokenSet(v)) }

  /** Every token is written the way mergeVersion prints it. */
  ghost predicate Canonical(v: string) {
    forall t :: t in TokenSet(v) ==> t == Token(Value(t))
  }

  /** Numbers a Go int can hold. */
  ghost predicate MachineInts(a: set<int>) { forall n :: n in a ==> -TWO_63 <= n < TWO_63 }

  /** The sorted printed form of a finite set of numbers. */
  ghost function Printed(a: set<int>): string {
    Render(SortedValues(Tokens(a)))
  }

  lemma {:induction false} SortedValuesElements(m: set<string>)
    ensures Elements(SortedValues(m)) == Values(m)
  {
    if m == {} {
    } else {
      var t :| t in m && SortedValues(m) == Insert(Value(t), SortedValues(m - {t}));
      SortedValuesElements(m - {t});
      InsertElements(Value(t), SortedValues(m - {t}));
      assert m == (m - {t}) + {t};
      assert Values(m) == Values(m - {t}) + {Value(t) as int};
    }
  }

  lemma ElementsCons(x: int, s: seq<int>)
    ensures Elements([x] + s) == {x} + Elements(s)
  {
  }

  lemma {:induction false} InsertElements(x: int, s: seq<int>)
    ensures Elements(Insert(x, s)) == Elements(s) + {x}
  {
    if s == [] || x <= s[0] {
      ElementsCons(x, s);
    } else {
      InsertElements(x, s[1..]);
      assert s == [s[0]] + s[1..];
      ElementsCons(s[0], s[1..]);
      ElementsCons(s[0], Insert(x, s[1..]));
    }
  }

  lemma TokensNumbers(a: set<int>, m: set<string>)
    requires MachineInts(a) && m == Tokens(a)
    ensures Values(m) == a && forall t :: t in m ==> t == Token(Value(t))
  {
    forall n | n in a ensures n in Values(m) {
      ValueToken(n);
      assert Token(n) in m;
    }
    forall t | t in m ensures Value(t) as int in a && t == Token(Value(t)) {
      var n :| n in a && t == Token(n);
      ValueToken(n);
    }
  }

  /** What a merged version mentions, however the inputs are written. */
  lemma MergedNumbers(v1: string, v2: string)
    ensures TokenSet(Merged(v1, v2)) == Tokens(Numbers(v1) + Numbers(v2))
    ensures Numbers(Merged(v1, v2)) == Numbers(v1) + Numbers(v2) && Canonical(Merged(v1, v2))
  {
    var m := TokenSet(v1) + TokenSet(v2);
    SortedValuesElements(m);
    TokenSetRender(SortedValues(m));
    assert Values(m) == Numbers(v1) + Numbers(v2);
    TokensNumbers(Values(m), TokenSet(Merged(v1, v2)));
  }

  lemma CanonicalTokens(v: string)
    requires Canonical(v)
    ensures TokenSet(v) == Tokens(Numbers(v)) && MachineInts(Numbers(v))
  {
    forall t | t in Tokens(Numbers(v)) ensures t in TokenSet(v) {
      var n :| n in Numbers(v) && t == Token(n);
    }
    forall t | t in TokenSet(v) ensures t in Tokens(Numbers(v)) {
      assert Value(t) as int in Numbers(v);
    }
  }

  /** On canonical versions merging is union of the numbers, printed in ascending order. */
  lemma MergeIsUnion(v1: string, v2: string)
    requires Canonical(v1) && Canonical(v2)
    ensures Merged(v1, v2) == Printed(Numbers(v1) + Numbers(v2))
  {
    CanonicalTokens(v1);
    CanonicalTokens(v2);
    assert TokenSet(v1) + TokenSet(v2) == Tokens(Numbers(v1) + Numbers(v2));
  }

  /** Printing a set of machine integers and reading it back gives the set. */
  lemma PrintedReadsBack(a: set<int>)
    requires MachineInts(a)
    ensures Numbers(Printed(a)) == a && Canonical(Printed(a))
  {
    TokensNumbers(a, Tokens(a));
    SortedValuesElements(Tokens(a));
    TokenSetRender(SortedValues(Tokens(a)));
  }

  /** The law in the form of sets: merge(print(A), print(B)) prints A + B. */
  lemma MergePrinted(a: set<int>, b: set<int>)
    requires MachineInts(a) && MachineInts(b)
    ensures Merged(Printed(a), Printed(b)) == Printed(a + b)
  {
    PrintedReadsBack(a);
    PrintedReadsBack(b);
    MergeIsUnion(Printed(a), Printed(b));
  }

  /** Commutative for every pair of strings. */
  lemma MergeCommutes(v1: string, v2: string)
    ensures Merged(v1, v2) == Merged(v2, v1)
  {
    assert TokenSet(v1) + TokenSet(v2) == TokenSet(v2) + TokenSet(v1);
  }

  /** Associative as soon as the first and the last argument are canonical. */
  lemma MergeAssociates(v1: string, v2: string, v3: string)
    requires Canonical(v1) && Canonical(v3)
    ensures Merged(Merged(v1, v2), v3) == Merged(v1, Merged(v2, v3))
  {
    MergedNumbers(v1, v2);
    MergedNumbers(v2, v3);
    MergeIsUnion(Merged(v1, v2), v3);
    MergeIsUnion(v1, Merged(v2, v3));
    assert Numbers(v1) + Numbers(v2) + Numbers(v3) == Numbers(v1) + (Numbers(v2) + Numbers(v3));
  }

  /** "" is a unit for, and merging a string with itself changes nothing on, printed versions. */
  lemma MergeUnitIdempotent(a: set<int>)
    requires MachineInts(a)
    ensures Merged("", Printed(a)) == Printed(a)
    ensures Merged(Printed(a), "") == Printed(a)
    ensures Merged(Printed(a), Printed(a)) == Printed(a)
  {
    PrintedReadsBack(a);
    EmptyVersion();
    MergeCommutes("", Printed(a));
    MergeIsUnion("", Printed(a));
    assert {} + a == a;
    MergePrinted(a, a);
    assert a + a == a;
  }

  lemma EmptyVersion()
    ensures Canonical("") && TokenSet("") == {} && Numbers("") == {}
  {
  }

  /** For every string the second application reaches a fixed point: the distinct numbers of the
      input, strictly ascending, each printed once as v<decimal>. */
  lemma MergeStabilises(v: string)
    ensures var once := Merged("", v);
            Merged("", once) == Printed(Numbers(v)) && Merged("", Merged("", once)) == Merged("", once)
    ensures StrictlyAscending(SortedValues(Tokens(Numbers(v))))
    ensures Elements(SortedValues(Tokens(Numbers(v)))) == Numbers(v)
  {
    var once, a := Merged("", v), Numbers(v);
    EmptyVersion();
    assert {} + a == a;
    MergedNumbers("", v);
    MergeIsUnion("", once);
    assert MachineInts(a);
    MergeUnitIdempotent(a);
    TokensNumbers(a, Tokens(a));
    SortedValuesElements(Tokens(a));
    SortedValuesStrict(Tokens(a));
  }

  /** Tokens that stand for different numbers sort strictly. */
  lemma {:induction false} SortedValuesStrict(m: set<string>)
    requires forall t, u :: t in m && u in m && Value(t) == Value(u) ==> t == u
    ensures StrictlyAscending(SortedValues(m))
  {
    if m == {} {
    } else {
      var t :| t in m && SortedValues(m) == Insert(Value(t), SortedValues(m - {t}));
      SortedValuesStrict(m - {t});
      SortedValuesElements(m - {t});
      assert Value(t) as int !in Values(m - {t});
      InsertStrict(Value(t), SortedValues(m - {t}));
    }
  }

  lemma {:induction false} InsertStrict(x: int, s: seq<int>)
    requires StrictlyAscending(s) && x !in Elements(s)
    ensures StrictlyAscending(Insert(x, s)) && |Insert(x, s)| == |s| + 1
    ensures Insert(x, s)[0] == if s == [] || x <= s[0] then x else s[0]
  {
    if s == [] {
    } else {
      assert s == [s[0]] + s[1..];
      ElementsCons(s[0], s[1..]);
      if x > s[0] { InsertStrict(x, s[1..]); }
    }
  }

  /** "1" and "v1" are two tokens with the same number. */
  lemma TwoSpellings()
    ensures SortedValues({"1", "v1"}) == [1, 1]
    ensures |Render([1, 1])| == 5
  {
    assert Digits(1) == "1" && Token(1) == "v1";
    ValueToken(1);
    AtoiItoa(1);
    assert DropFront("1", IsV) == "1" == Itoa(1);
    SortedValuesTake({"1", "v1"}, "1");
    assert {"1", "v1"} - {"1"} == {"v1"};
    SortedValuesTake({"v1"}, "v1");
    assert {"v1"} - {"v1"} == {};
    RenderJoined([1, 1]);
    assert [1, 1][..1] == [1];
    assert Joined([1, 1]) == Joined([1]) + [SEP] + "v1";
  }

  /** The second application is needed, and so is canonicity: merging "1" with "v1" prints "v1/v1"
      when the "v1" is on one side and the "1" on the other, and "v1" once it has been re-read. */
  lemma OneApplicationIsNotEnough()
    ensures Merged("v1", "1") != Merged("", Merged("v1", "1"))
  {
    assert Split("1") == ["1"] && Split("v1") == ["v1"] by { SplitPlain("1"); SplitPlain("v1"); }
    assert TrimSpace("1") == "1" && TrimSpace("v1") == "v1";
    assert TokenSet("1") == {"1"} && TokenSet("v1") == {"v1"};
    assert {"v1"} + {"1"} == {"1", "v1"};
    TwoSpellings();
    assert |Merged("v1", "1")| == 5;
    TokenSetRender([1, 1]);
    assert Elements([1, 1]) == {1};
    assert Tokens({1}) == {"v1"} by { assert Digits(1) == "1" && Token(1) == "v1"; }
    assert TokenSet("") == {} && {} + {"v1"} == {"v1"};
    SortedValuesTake({"v1"}, "v1");
    assert {"v1"} - {"v1"} == {};
    RenderJoined([Value("v1")]);
    assert Value("v1") == 1 by { ValueToken(1); assert Digits(1) == "1" && Token(1) == "v1"; }
  }

  // ---------------------------------------------------------------- folding versions in order of arrival

  /** What buildAppsetStatus accumulates: it starts from "" and merges each arriving version. */
  ghost function MergeAll(vs: seq<string>): string {
    if vs == [] then "" else Merged(MergeAll(vs[..|vs| - 1]), vs[|vs| - 1])
  }

  ghost function AllNumbers(vs: seq<string>): set<int> {
    set v, n | v in vs && n in Numbers(v) :: n
  }

  lemma AllNumbersLast(vs: seq<string>)
    requires vs != []
    ensures AllNumbers(vs) == AllNumbers(vs[..|vs| - 1]) + Numbers(vs[|vs| - 1])
  {
    var front, last := vs[..|vs| - 1], vs[|vs| - 1];
    assert vs == front + [last];
    assert forall v :: v in vs <==> v in front || v == last;
  }

  /** The accumulated version mentions the numbers of all versions and is always canonical. */
  lemma {:induction false} MergeAllNumbers(vs: seq<string>)
    ensures Numbers(MergeAll(vs)) == AllNumbers(vs) && Canonical(MergeAll(vs))
  {
    if vs == [] {
      assert TokenSet("") == {};
    } else {
      MergeAllNumbers(vs[..|vs| - 1]);
      MergedNumbers(MergeAll(vs[..|vs| - 1]), vs[|vs| - 1]);
      AllNumbersLast(vs);
    }
  }

  /** Canonical versions accumulate to the print of all their numbers, so the order of arrival
      cannot be seen in the result. */
  lemma MergeAllIsUnion(vs: seq<string>)
    requires forall v :: v in vs ==> Canonical(v)
    ensures MergeAll(vs) == Printed(AllNumbers(vs))
  {
    MergeAllNumbers(vs);
    if vs == [] {
      assert Tokens({}) == {};
    } else {
      var front, last := vs[..|vs| - 1], vs[|vs| - 1];
      MergeAllNumbers(front);
      MergeIsUnion(MergeAll(front), last);
      MergedNumbers(MergeAll(front), last);
    }
  }
}
