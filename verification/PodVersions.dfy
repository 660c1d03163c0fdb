/** The worker's version text, `removeDuplicatedVersion`: the distinct versions of the pod sets in
    lexicographic order, and how it comes through the master's numeric merge. */
module PodVersions {
  import opened Prelude
  import opened Api
  import opened Version

  // ---------------------------------------------------------------- sort.Strings

  predicate AtMost(a: string, b: string) {
    a == "" || (b != "" && (a[0] < b[0] || (a[0] == b[0] && AtMost(a[1..], b[1..]))))
  }

  lemma {:induction false} AtMostTotal(a: string, b: string)
    ensures AtMost(a, b) || AtMost(b, a)
    ensures AtMost(a, b) && AtMost(b, a) ==> a == b
  {
    if a == "" || b == "" || a[0] != b[0] {
    } else {
      AtMostTotal(a[1..], b[1..]);
      assert a == [a[0]] + a[1..] && b == [b[0]] + b[1..];
    }
  }

  lemma {:induction false} AtMostTransitive(a: string, b: string, c: string)
    requires AtMost(a, b) && AtMost(b, c)
    ensures AtMost(a, c)
  {
    if a == "" || a[0] != b[0] || b[0] != c[0] {
    } else {
      AtMostTransitive(a[1..], b[1..], c[1..]);
    }
  }

  /** A prefix comes first, and otherwise the first difference decides. */
  lemma {:induction false} AtMostIff(a: string, b: string)
    ensures AtMost(a, b) <==> a <= b || exists k: nat :: k < |a| && k < |b| && a[..k] == b[..k] && a[k] < b[k]
  {
    if a == "" || b == "" {
    } else if a[0] != b[0] {
      assert a[0] < b[0] ==> a[..0] == b[..0];
    } else {
      AtMostIff(a[1..], b[1..]);
      assert a == [a[0]] + a[1..] && b == [b[0]] + b[1..];
      if k: nat :| k < |a| && k < |b| && a[..k] == b[..k] && a[k] < b[k] {
        assert a[1..][..k - 1] == a[..k][1..] && b[1..][..k - 1] == b[..k][1..];
      }
      if k: nat :| k < |a[1..]| && k < |b[1..]| && a[1..][..k] == b[1..][..k] && a[1..][k] < b[1..][k] {
        assert a[..k + 1] == [a[0]] + a[1..][..k] && b[..k + 1] == [b[0]] + b[1..][..k];
      }
    }
  }

  function InsertText(x: string, s: seq<string>): seq<string> {
    if s == [] || AtMost(x, s[0]) then [x] + s else [s[0]] + InsertText(x, s[1..])
  }

  function SortTexts(s: seq<string>): seq<string> {
    if s == [] then [] else InsertText(s[|s| - 1], SortTexts(s[..|s| - 1]))
  }

  predicate AscendingTexts(s: seq<string>) { forall i, j :: 0 <= i < j < |s| ==> AtMost(s[i], s[j]) && s[i] != s[j] }

  ghost function Members(s: seq<string>): set<string> { set t | t in s }

  lemma {:induction false} InsertTextMembers(x: string, s: seq<string>)
    ensures Members(InsertText(x, s)) == Members(s) + {x}
  {
    if s != [] && !AtMost(x, s[0]) {
      InsertTextMembers(x, s[1..]);
      MembersCons(s[0], s[1..]);
      assert s == [s[0]] + s[1..];
      MembersCons(s[0], InsertText(x, s[1..]));
    } else {
      MembersCons(x, s);
    }
  }

  lemma MembersCons(x: string, s: seq<string>)
    ensures Members([x] + s) == {x} + Members(s)
  {
  }

  lemma {:induction false} InsertTextSorts(x: string, s: seq<string>)
    requires AscendingTexts(s) && x !in s
    ensures AscendingTexts(InsertText(x, s)) && |InsertText(x, s)| == |s| + 1
    ensures InsertText(x, s)[0] == if s == [] || AtMost(x, s[0]) then x else s[0]
  {
    if s == [] {
    } else {
      var r := InsertText(x, s);
      if AtMost(x, s[0]) {
        forall j | 0 <= j < |s| ensures AtMost(x, s[j]) && x != s[j] {
          if j > 0 { AtMostTransitive(x, s[0], s[j]); }
        }
      } else {
        assert x !in s[1..];
        InsertTextSorts(x, s[1..]);
        InsertTextMembers(x, s[1..]);
        forall j | 0 < j < |r| ensures AtMost(s[0], r[j]) && s[0] != r[j] {
          assert r[j] in Members(InsertText(x, s[1..]));
          AtMostTotal(x, s[0]);
          if r[j] != x { var k :| 0 <= k < |s[1..]| && s[1..][k] == r[j]; assert s[k + 1] == r[j]; }
        }
      }
    }
  }

  lemma DistinctSnoc(s: seq<string>)
    requires Distinct(s) && s != []
    ensures Distinct(s[..|s| - 1]) && s[|s| - 1] !in Members(s[..|s| - 1])
    ensures Members(s) == Members(s[..|s| - 1]) + {s[|s| - 1]}
  {
    assert s == s[..|s| - 1] + [s[|s| - 1]];
  }

  lemma NotAmong(x: string, s: seq<string>)
    requires x !in Members(s)
    ensures x !in s
  {
  }

  /** Sorting distinct texts gives them in strictly ascending order. */
  lemma {:induction false} SortTextsSorts(s: seq<string>)
    requires Distinct(s)
    ensures AscendingTexts(SortTexts(s)) && Members(SortTexts(s)) == Members(s)
  {
    if s == [] {
    } else {
      var front, last := s[..|s| - 1], s[|s| - 1];
      SortTextsSorts(front);
      DistinctSnoc(s);
      NotAmong(last, SortTexts(front));
      InsertTextSorts(last, SortTexts(front));
      InsertTextMembers(last, SortTexts(front));
    }
  }

  // ---------------------------------------------------------------- removeDuplicatedVersion

  /** strings.Join(ts, "/"). */
  function Join(ts: seq<string>): string {
    if ts == [] then "" else if |ts| == 1 then ts[0] else Join(ts[..|ts| - 1]) + [SEP] + ts[|ts| - 1]
  }

  /** The texts with slashes in between. */
  lemma JoinAppends(ts: seq<string>, t: string)
    ensures Join([]) == "" && Join([t]) == t
    ensures ts != [] ==> Join(ts + [t]) == Join(ts) + "/" + t
  {
    if ts != [] { assert (ts + [t])[..|ts|] == ts; }
  }

  /** First occurrences of the non-empty texts, in order. */
  function FirstOccurrences(vs: seq<string>): seq<string> {
    if vs == [] then []
    else
      var before, last := FirstOccurrences(vs[..|vs| - 1]), vs[|vs| - 1];
      if last == "" || last in before then before else before + [last]
  }

  function WorkerVersion(vs: seq<string>): string { Join(SortTexts(FirstOccurrences(vs))) }

  method RemoveDuplicatedVersion(list: seq<string>) returns (r: string)
    ensures r == WorkerVersion(list)
  {
    var found: set<string> := {};
    var versions: seq<string> := [];
    for i := 0 to |list|
      invariant versions == FirstOccurrences(list[..i]) && found == Members(versions)
    {
      assert list[..i + 1][..i] == list[..i];
      if list[i] != "" {
        if list[i] !in found {
          found := found + {list[i]};
          versions := versions + [list[i]];
        }
      }
    }
    assert list[..|list|] == list;
    r := Join(SortTexts(versions));
  }

  ghost function NonEmpty(vs: seq<string>): set<string> { set v | v in vs && v != "" }

  lemma {:induction false} FirstOccurrencesAreThe(vs: seq<string>)
    ensures Distinct(FirstOccurrences(vs)) && Members(FirstOccurrences(vs)) == NonEmpty(vs)
  {
    if vs == [] {
    } else {
      var front, last := vs[..|vs| - 1], vs[|vs| - 1];
      FirstOccurrencesAreThe(front);
      assert vs == front + [last];
      assert NonEmpty(vs) == NonEmpty(front) + if last == "" then {} else {last};
      assert last in FirstOccurrences(front) <==> last in Members(FirstOccurrences(front));
    }
  }

  /** The listed texts: strictly ascending, and exactly the non-empty versions. */
  lemma ListedVersions(vs: seq<string>)
    ensures var ts := SortTexts(FirstOccurrences(vs));
      AscendingTexts(ts) && Members(ts) == NonEmpty(vs) && WorkerVersion(vs) == Join(ts)
  {
    FirstOccurrencesAreThe(vs);
    SortTextsSorts(FirstOccurrences(vs));
  }

  // ---------------------------------------------------------------- the order of the pod sets

  lemma FirstIsMember(s: seq<string>)
    ensures s != [] ==> s[0] in Members(s)
  {
  }

  lemma LeastMember(a: seq<string>, b: seq<string>)
    requires AscendingTexts(a) && AscendingTexts(b) && Members(a) == Members(b) && a != []
    ensures b != [] && a[0] == b[0] && Members(a[1..]) == Members(b[1..])
  {
    assert a[0] in Members(b) && b[0] in Members(a);
    AtMostTotal(a[0], b[0]);
    assert a == [a[0]] + a[1..] && b == [b[0]] + b[1..];
    assert a[0] !in a[1..] && b[0] !in b[1..];
    assert Members(a[1..]) == Members(a) - {a[0]} && Members(b[1..]) == Members(b) - {b[0]};
  }

  lemma {:induction false} AscendingTextsUnique(a: seq<string>, b: seq<string>)
    requires AscendingTexts(a) && AscendingTexts(b) && Members(a) == Members(b)
    ensures a == b
  {
    FirstIsMember(b);
    if a == [] {
    } else {
      LeastMember(a, b);
      AscendingTextsUnique(a[1..], b[1..]);
      assert a == [a[0]] + a[1..] && b == [b[0]] + b[1..];
    }
  }

  /** The text depends on nothing but which non-empty versions there are. */
  lemma WorkerVersionOfSame(vs: seq<string>, ws: seq<string>)
    requires NonEmpty(vs) == NonEmpty(ws)
    ensures WorkerVersion(vs) == WorkerVersion(ws)
  {
    ListedVersions(vs);
    ListedVersions(ws);
    AscendingTextsUnique(SortTexts(FirstOccurrences(vs)), SortTexts(FirstOccurrences(ws)));
  }

  /** sort.Slice by name. */
  function InsertPod(p: PodInfo, ps: seq<PodInfo>): seq<PodInfo> {
    if ps == [] || AtMost(p.name, ps[0].name) then [p] + ps else [ps[0]] + InsertPod(p, ps[1..])
  }

  function SortPods(ps: seq<PodInfo>): seq<PodInfo> {
    if ps == [] then [] else InsertPod(ps[|ps| - 1], SortPods(ps[..|ps| - 1]))
  }

  lemma {:induction false} InsertPodPermutes(p: PodInfo, ps: seq<PodInfo>)
    ensures multiset(InsertPod(p, ps)) == multiset(ps) + multiset{p}
  {
    if ps == [] || AtMost(p.name, ps[0].name) {
    } else {
      InsertPodPermutes(p, ps[1..]);
      assert ps == [ps[0]] + ps[1..];
    }
  }

  lemma {:induction false} SortPodsPermutes(ps: seq<PodInfo>)
    ensures multiset(SortPods(ps)) == multiset(ps)
  {
    if ps == [] {
    } else {
      SortPodsPermutes(ps[..|ps| - 1]);
      InsertPodPermutes(ps[|ps| - 1], SortPods(ps[..|ps| - 1]));
      assert ps == ps[..|ps| - 1] + [ps[|ps| - 1]];
    }
  }

  predicate NamesAscend(ps: seq<PodInfo>) {
    forall i, j :: 0 <= i < j < |ps| ==> AtMost(ps[i].name, ps[j].name)
  }

  lemma {:induction false} InsertPodSorts(p: PodInfo, ps: seq<PodInfo>)
    requires NamesAscend(ps)
    ensures NamesAscend(InsertPod(p, ps))
  {
    if ps == [] {
    } else if AtMost(p.name, ps[0].name) {
      forall j | 0 <= j < |ps| ensures AtMost(p.name, ps[j].name) {
        if j > 0 { AtMostTransitive(p.name, ps[0].name, ps[j].name); }
      }
    } else {
      var rest := InsertPod(p, ps[1..]);
      InsertPodSorts(p, ps[1..]);
      InsertPodPermutes(p, ps[1..]);
      AtMostTotal(p.name, ps[0].name);
      forall j | 0 <= j < |rest| ensures AtMost(ps[0].name, rest[j].name) {
        assert rest[j] in multiset(ps[1..]) + multiset{p};
      }
    }
  }

  /** and they are in ascending order of their names. */
  lemma {:induction false} SortPodsSorts(ps: seq<PodInfo>)
    ensures forall i, j :: 0 <= i < j < |SortPods(ps)| ==> AtMost(SortPods(ps)[i].name, SortPods(ps)[j].name)
  {
    if ps == [] {
    } else {
      SortPodsSorts(ps[..|ps| - 1]);
      InsertPodSorts(ps[|ps| - 1], SortPods(ps[..|ps| - 1]));
    }
  }

  function VersionsOf(ps: seq<PodInfo>): seq<string> { seq(|ps|, i requires 0 <= i < |ps| => ps[i].version) }

  lemma VersionFrom(ps: seq<PodInfo>, qs: seq<PodInfo>, v: string)
    requires multiset(ps) == multiset(qs) && v in NonEmpty(VersionsOf(ps))
    ensures v in NonEmpty(VersionsOf(qs))
  {
    var i :| 0 <= i < |ps| && VersionsOf(ps)[i] == v;
    assert ps[i] in multiset(qs);
    var j :| 0 <= j < |qs| && qs[j] == ps[i];
    assert VersionsOf(qs)[j] == v;
  }

  /** So sorting the pod sets first, as dealAggreStatus does, does not change it. */
  lemma WorkerVersionOfSorted(ps: seq<PodInfo>)
    ensures WorkerVersion(VersionsOf(SortPods(ps))) == WorkerVersion(VersionsOf(ps))
  {
    SortPodsPermutes(ps);
    forall v ensures v in NonEmpty(VersionsOf(SortPods(ps))) <==> v in NonEmpty(VersionsOf(ps)) {
      if v in NonEmpty(VersionsOf(SortPods(ps))) { VersionFrom(SortPods(ps), ps, v); }
      if v in NonEmpty(VersionsOf(ps)) { VersionFrom(ps, SortPods(ps), v); }
    }
    WorkerVersionOfSame(VersionsOf(SortPods(ps)), VersionsOf(ps));
  }

  // ---------------------------------------------------------------- through the master's merge

  /** A version the way mergeVersion prints one. */
  predicate IsToken(v: string) { v == Token(Value(v)) }

  predicate AllTokens(ts: seq<string>) { forall i :: 0 <= i < |ts| ==> IsToken(ts[i]) }

  lemma {:induction false} JoinShape(ts: seq<string>)
    requires ts != [] && AllTokens(ts)
    ensures var s := Join(ts); |s| >= 2 && s[0] == 'v' && IsDigit(s[|s| - 1])
  {
    TokenShape(Value(ts[|ts| - 1]));
    if |ts| == 1 {
    } else {
      JoinShape(ts[..|ts| - 1]);
    }
  }

  lemma {:induction false} SplitJoin(ts: seq<string>)
    requires ts != [] && AllTokens(ts)
    ensures Split(Join(ts)) == ts
  {
    var front, last := ts[..|ts| - 1], ts[|ts| - 1];
    TokenShape(Value(last));
    if |ts| == 1 {
      SplitPlain(last);
    } else {
      SplitJoin(front);
      SplitSnoc(Join(front), last);
    }
  }

  lemma TrimJoin(ts: seq<string>)
    requires AllTokens(ts)
    ensures TokenSet(Join(ts)) == NonEmpty(ts)
  {
    if ts == [] {
      assert Split("") == [""];
    } else {
      JoinShape(ts);
      SplitJoin(ts);
      var s := Join(ts);
      assert DropFront(s, IsSpace) == s;
      DropBackNone(s, IsSpace);
    }
  }

  /** A worker whose pod sets carry printed versions reports a canonical text with exactly their numbers,
      although it orders them as texts. */
  lemma WorkerVersionIsCanonical(vs: seq<string>)
    requires forall v :: v in vs && v != "" ==> IsToken(v)
    ensures TokenSet(WorkerVersion(vs)) == NonEmpty(vs)
    ensures Canonical(WorkerVersion(vs)) && Numbers(WorkerVersion(vs)) == Values(NonEmpty(vs))
  {
    ListedVersions(vs);
    var ts := SortTexts(FirstOccurrences(vs));
    forall i | 0 <= i < |ts| ensures IsToken(ts[i]) && ts[i] != "" {
      assert ts[i] in Members(ts);
    }
    TrimJoin(ts);
    assert NonEmpty(ts) == Members(ts);
  }

  function WorkerVersions(clusters: seq<seq<string>>): seq<string> {
    seq(|clusters|, i requires 0 <= i < |clusters| => WorkerVersion(clusters[i]))
  }

  ghost predicate AllPrinted(clusters: seq<seq<string>>) {
    forall i, v :: 0 <= i < |clusters| && v in clusters[i] && v != "" ==> IsToken(v)
  }

  /** The versions of all pod sets of all clusters. */
  ghost function AllPodVersions(clusters: seq<seq<string>>): set<string> {
    set i, v | 0 <= i < |clusters| && v in clusters[i] && v != "" :: v
  }

  /** From the pod sets of every cluster to the AppSet: whatever the clusters' order, the version is the
      ascending print of the numbers of all pod set versions anywhere, each once. */
  lemma AppSetVersionIsAllPodVersions(clusters: seq<seq<string>>)
    requires AllPrinted(clusters)
    ensures MergeAll(WorkerVersions(clusters)) == Printed(Values(AllPodVersions(clusters)))
  {
    var ws := WorkerVersions(clusters);
    forall w | w in ws ensures Canonical(w) {
      var i :| 0 <= i < |clusters| && ws[i] == w;
      WorkerVersionIsCanonical(clusters[i]);
    }
    MergeAllIsUnion(ws);
    forall n ensures n in AllNumbers(ws) <==> n in Values(AllPodVersions(clusters)) {
      if n in AllNumbers(ws) { NumberFromPod(clusters, n); }
      if n in Values(AllPodVersions(clusters)) { NumberReachesMaster(clusters, n); }
    }
    assert AllNumbers(ws) == Values(AllPodVersions(clusters));
  }

  lemma NumberFromPod(clusters: seq<seq<string>>, n: int)
    requires AllPrinted(clusters) && n in AllNumbers(WorkerVersions(clusters))
    ensures n in Values(AllPodVersions(clusters))
  {
    var ws := WorkerVersions(clusters);
    var w :| w in ws && n in Numbers(w);
    var i :| 0 <= i < |clusters| && ws[i] == w;
    WorkerVersionIsCanonical(clusters[i]);
    var t :| t in NonEmpty(clusters[i]) && n == Value(t) as int;
    assert t in AllPodVersions(clusters);
  }

  lemma NumberReachesMaster(clusters: seq<seq<string>>, n: int)
    requires AllPrinted(clusters) && n in Values(AllPodVersions(clusters))
    ensures n in AllNumbers(WorkerVersions(clusters))
  {
    var t :| t in AllPodVersions(clusters) && n == Value(t) as int;
    var i :| 0 <= i < |clusters| && t in clusters[i] && t != "";
    WorkerVersionIsCanonical(clusters[i]);
    var ws, w := WorkerVersions(clusters), WorkerVersion(clusters[i]);
    assert t in NonEmpty(clusters[i]) && n in Numbers(w);
    assert ws[i] == w && w in ws;
  }
}
