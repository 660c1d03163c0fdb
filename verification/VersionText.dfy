/** The texts behind the merge, character by character: what a token is worth, how a number is printed, and
    which characters do not matter. */
module VersionText {
  import opened Prelude
  import opened Version

  function DigitOf(c: char): nat
    requires '0' <= c <= '9'
  {
    c as int - '0' as int
  }

  // ---------------------------------------------------------------- reading

  lemma AtoiDecimal(s: string)
    requires s != "" && AllDigits(s)
    ensures Atoi(s) == if Decimal(s, 0) >= TWO_63 then TWO_63 - 1 else Decimal(s, 0)
  {
    ParseUintDecimal(s, 0);
  }

  /** Digits are read as a decimal number: one more digit means ten times as much plus that digit, up to the
      largest int64. */
  lemma AtoiAppends(s: string, c: char)
    requires s != "" && (forall i :: 0 <= i < |s| ==> '0' <= s[i] <= '9') && '0' <= c <= '9'
    ensures Atoi([c]) == DigitOf(c)
    ensures Atoi(s + [c]) == if 10 * Atoi(s) + DigitOf(c) >= TWO_63 then TWO_63 - 1 else 10 * Atoi(s) + DigitOf(c)
  {
    AtoiDecimal(s);
    DecimalSnoc("", c, 0);
    assert "" + [c] == [c];
    AtoiDecimal([c]);
    DecimalSnoc(s, c, 0);
    AtoiDecimal(s + [c]);
  }

  /** A sign may stand in front; below the largest int64 it only changes the sign. */
  lemma AtoiSigns(s: string)
    requires s != "" && forall i :: 0 <= i < |s| ==> '0' <= s[i] <= '9'
    ensures Atoi("+" + s) == Atoi(s)
    ensures Atoi("-" + s) == -Atoi(s) || (Atoi(s) == TWO_63 - 1 && Atoi("-" + s) == -TWO_63)
  {
    AtoiDecimal(s);
    ParseUintDecimal(s, 0);
    assert ("+" + s)[1..] == s && ("-" + s)[1..] == s;
  }

  lemma {:induction false} ParseUintStops(s: string, p: nat, acc: nat)
    requires p < |s| && AllDigits(s[..p]) && !IsDigit(s[p]) && acc < TWO_64
    ensures ParseUint(s, acc) == if Decimal(s[..p], acc) >= TWO_64 then Some(TWO_64 - 1) else None
    decreases p
  {
    if p == 0 {
    } else {
      var n := acc * 10 + (s[0] as int - '0' as int);
      assert s[..p][1..] == s[1..][..p - 1];
      if n >= TWO_64 { DecimalGrows(s[..p][1..], n); } else { ParseUintStops(s[1..], p - 1, n); }
    }
  }

  /** Anything else is worth 0, unless the digits before the first other character overflow already. */
  lemma AtoiOfOther(s: string, p: nat)
    requires p < |s| && AllDigits(s[..p]) && !IsDigit(s[p]) && (p == 0 ==> s[0] != '+' && s[0] != '-')
    ensures Atoi(s) == if Decimal(s[..p], 0) >= TWO_64 then TWO_63 - 1 else 0
  {
    ParseUintStops(s, p, 0);
  }

  /** And so are nothing at all, and a sign alone. */
  lemma AtoiOfNothing(s: string)
    requires s == "" || s == "+" || s == "-"
    ensures Atoi(s) == 0
  {
  }

  /** Leading v's do not count. */
  lemma ValueSkipsV(s: string)
    ensures Value("v" + s) == Value(s) && ((s == "" || s[0] != 'v') ==> Value(s) == Atoi(s))
  {
    assert ("v" + s)[1..] == s;
  }

  // ---------------------------------------------------------------- printing

  /** A digit is printed as itself, a longer number without its last digit and then that digit, a negative
      number after a minus sign. */
  lemma ItoaAppends(n: nat, c: char)
    requires '0' <= c <= '9'
    ensures Itoa(DigitOf(c)) == [c]
    ensures n > 0 ==> Itoa(10 * n + DigitOf(c)) == Itoa(n) + [c]
    ensures n > 0 ==> Itoa(0 - n) == "-" + Itoa(n)
  {
    var d := DigitOf(c);
    assert DigitChar(d) == c;
    assert (10 * n + d) / 10 == n && (10 * n + d) % 10 == d;
  }

  /** A list is printed token by token, separated by slashes, each a v and the number. */
  lemma RenderAppends(ns: seq<int>, n: int)
    ensures Render([]) == "" && Render([n]) == "v" + Itoa(n)
    ensures ns != [] ==> Render(ns + [n]) == Render(ns) + "/" + ("v" + Itoa(n))
  {
    RenderJoined([]);
    RenderJoined([n]);
    RenderJoined(ns);
    RenderJoined(ns + [n]);
    if ns != [] { assert (ns + [n])[..|ns|] == ns; }
  }

  // ---------------------------------------------------------------- what does not matter

  lemma {:induction false} DropFrontSnoc(s: string, c: char)
    requires IsSpace(c)
    ensures DropFront(s + [c], IsSpace) == if DropFront(s, IsSpace) == "" then "" else DropFront(s, IsSpace) + [c]
  {
    if s == "" {
      assert "" + [c] == [c] && DropFront([c][1..], IsSpace) == "";
    } else if IsSpace(s[0]) {
      DropFrontSnoc(s[1..], c);
      assert (s + [c])[1..] == s[1..] + [c];
    }
  }

  /** White space around a version does not matter. */
  lemma SpaceDoesNotMatter(c: char, v: string, w: string)
    requires c in {' ', '\t', '\n', '\r'}
    ensures Merged([c] + v, w) == Merged(v, w) && Merged(v + [c], w) == Merged(v, w)
  {
    assert IsSpace(c);
    assert ([c] + v)[1..] == v;
    DropFrontSnoc(v, c);
    var s := DropFront(v, IsSpace);
    assert (s + [c])[..|s|] == s;
  }

  /** Nor do slashes at the ends, or slashes too many. */
  lemma SlashesDoNotMatter(v: string, w: string)
    requires v != "" && !IsSpace(v[0]) && !IsSpace(v[|v| - 1])
    ensures Merged("/" + v, w) == Merged(v, w) && Merged(v + "/", w) == Merged(v, w)
  {
    var s, t := "/" + v, v + "/";
    assert s[1..] == v;
    assert TrimSpace(v) == v && TrimSpace(s) == s && TrimSpace(t) == t;
    assert Split(s) == [""] + Split(v);
    SplitSnoc(v, "");
    assert t == v + [SEP] + "";
    assert TokenSet(s) == TokenSet(v);
    assert forall x :: x in Split(t) <==> x in Split(v) || x == "";
    assert TokenSet(t) == TokenSet(v);
  }
}
