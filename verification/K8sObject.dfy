/** A rendered object with its JSON and YAML caches. */
module K8sObject {
  import opened Prelude

  type Labels = map<string, string>
  type Text = seq<int>

  /** The object as a value: its labels and the rest of it. */
  datatype Resource = Resource(labels: Labels, rest: nat)

  /** The JSON and YAML libraries. */
  datatype Codec = Codec(
    marshal: Resource -> Option<Text>,
    readJson: Text -> Option<Resource>,
    toYaml: Text -> Option<Text>,
    readYaml: Text -> Option<Resource>)

  /** Reading undoes writing, and converting JSON to YAML keeps the content. */
  ghost predicate Sound(c: Codec) {
    && (forall r: Resource :: c.marshal(r).Some? ==> c.readJson(c.marshal(r).value) == Some(r))
    && (forall j: Text :: c.toYaml(j).Some? && c.readJson(j).Some? ==> c.readYaml(c.toYaml(j).value) == c.readJson(j))
  }

  /** MergeMap: the second map wins. */
  method MergeMap(m1: Labels, m2: Labels) returns (merge: Labels)
    ensures merge == m1 + m2
  {
    merge := map[];
    var keys := m1.Keys;
    while keys != {}
      invariant keys <= m1.Keys && merge == map k | k in m1 && k !in keys :: m1[k]
    {
      var k :| k in keys;
      keys := keys - {k};
      merge := merge[k := m1[k]];
    }
    assert merge == m1;
    keys := m2.Keys;
    while keys != {}
      invariant keys <= m2.Keys && merge == m1 + map k | k in m2 && k !in keys :: m2[k]
    {
      var k :| k in keys;
      keys := keys - {k};
      merge := merge[k := m2[k]];
    }
    assert (map k | k in m2 && k !in {} :: m2[k]) == m2;
  }

  class Unstructured {
    var resource: Resource

    constructor (r: Resource)
      ensures resource == r
    {
      resource := r;
    }
  }

  class K8sObj {
    const obj: Unstructured
    var json: Option<Text>
    var yaml: Option<Text>

    /** The object is shared with the caller, as are the given texts. */
    constructor (obj: Unstructured, json: Option<Text>, yaml: Option<Text>)
      ensures this.obj == obj && this.json == json && this.yaml == yaml
    {
      this.obj, this.json, this.yaml := obj, json, yaml;
    }

    /** Every cached text reads as the current object. */
    ghost predicate Coherent(c: Codec)
      reads this, obj
    {
      && (json.Some? ==> c.readJson(json.value) == Some(obj.resource))
      && (yaml.Some? ==> c.readYaml(yaml.value) == Some(obj.resource))
    }

    method JSON(c: Codec) returns (r: Option<Text>)
      requires Sound(c) && Coherent(c)
      modifies this`json
      ensures Coherent(c) && json == r
      ensures r.Some? ==> c.readJson(r.value) == Some(obj.resource)
      ensures r == if old(json).Some? then old(json) else c.marshal(obj.resource)
    {
      if json.Some? { return json; }
      r := c.marshal(obj.resource);
      json := r;
    }

    method YAML(c: Codec) returns (r: Option<Text>)
      requires Sound(c) && Coherent(c)
      modifies this`json, this`yaml
      ensures Coherent(c) && yaml == r
      ensures r.Some? ==> c.readYaml(r.value) == Some(obj.resource)
      ensures old(yaml).Some? ==> r == old(yaml)
      ensures old(yaml).None? ==>
                var j := if old(json).Some? then old(json) else c.marshal(obj.resource);
                r == if j.Some? then c.toYaml(j.value) else None
    {
      if yaml.Some? { return yaml; }
      var j := JSON(c);
      if j.None? { return None; }
      r := c.toYaml(j.value);
      yaml := r;
    }

    method AddLabels(c: Codec, labels: Labels)
      modifies this`json, this`yaml, obj
      ensures Coherent(c)
      ensures obj.resource == old(obj.resource).(labels := old(obj.resource).labels + labels)
      ensures json == None && yaml == None
    {
      var merged := MergeMap(obj.resource.labels, labels);
      obj.resource := obj.resource.(labels := merged);
      json, yaml := None, None;
    }
  }

  // ---------------------------------------------------------------- sequences of calls

  datatype Call = AskJson | AskYaml | Add(labels: Labels)

  function Added(calls: seq<Call>): seq<Labels> {
    if calls == [] then []
    else
      var last := calls[|calls| - 1];
      Added(calls[..|calls| - 1]) + if last.Add? then [last.labels] else []
  }

  /** The override merge from left to right. */
  function MergeAll(first: Labels, more: seq<Labels>): Labels {
    if more == [] then first else MergeAll(first, more[..|more| - 1]) + more[|more| - 1]
  }

  /** The object after the calls. */
  function After(r: Resource, calls: seq<Call>): Resource {
    if calls == [] then r
    else
      var before, last := After(r, calls[..|calls| - 1]), calls[|calls| - 1];
      if last.Add? then before.(labels := before.labels + last.labels) else before
  }

  /** The JSON of r cannot be converted. */
  ghost predicate NotConverted(c: Codec, r: Resource) {
    exists j: Text :: c.readJson(j) == Some(r) && c.toYaml(j).None?
  }

  /** An answer reads as r, and there is none only when the library cannot write or convert r. */
  ghost predicate Answers(c: Codec, call: Call, answer: Option<Text>, r: Resource) {
    match call
    case AskJson => if answer.Some? then c.readJson(answer.value) == Some(r) else c.marshal(r).None?
    case AskYaml =>
      if answer.Some? then c.readYaml(answer.value) == Some(r) else c.marshal(r).None? || NotConverted(c, r)
    case Add(_) => answer == None
  }

  method Perform(c: Codec, k: K8sObj, call: Call) returns (answer: Option<Text>)
    requires Sound(c) && k.Coherent(c)
    modifies k, k.obj
    ensures k.Coherent(c) && Answers(c, call, answer, old(k.obj.resource))
    ensures k.obj.resource == if call.Add? then old(k.obj.resource).(labels := old(k.obj.resource).labels + call.labels)
                              else old(k.obj.resource)
  {
    answer := None;
    match call {
      case AskJson => answer := k.JSON(c);
      case AskYaml => answer := k.YAML(c);
      case Add(labels) => k.AddLabels(c, labels);
    }
  }

  /** After any sequence of calls every cached text still reads as the current object, and every answer
      given on the way read as the object at its time; a question goes unanswered only when the library fails. */
  method Run(c: Codec, k: K8sObj, calls: seq<Call>) returns (answers: seq<Option<Text>>)
    requires Sound(c) && k.Coherent(c)
    modifies k, k.obj
    ensures k.Coherent(c) && k.obj.resource == After(old(k.obj.resource), calls)
    ensures |answers| == |calls|
    ensures forall i :: 0 <= i < |calls| ==> Answers(c, calls[i], answers[i], After(old(k.obj.resource), calls[..i]))
  {
    answers := [];
    ghost var start := k.obj.resource;
    for i := 0 to |calls|
      invariant k.Coherent(c) && |answers| == i && k.obj.resource == After(start, calls[..i])
      invariant forall j :: 0 <= j < i ==> Answers(c, calls[j], answers[j], After(start, calls[..j]))
    {
      assert calls[..i + 1][..i] == calls[..i];
      var answer := Perform(c, k, calls[i]);
      answers := answers + [answer];
    }
    assert calls[..|calls|] == calls;
  }

  /** The labels after any sequence of calls are the left-to-right merge of all that were added, and the
      rest of the object is untouched. */
  lemma {:induction false} AfterIsMerge(r: Resource, calls: seq<Call>)
    ensures After(r, calls) == r.(labels := MergeAll(r.labels, Added(calls)))
  {
    if calls == [] {
    } else {
      var front, last := calls[..|calls| - 1], calls[|calls| - 1];
      AfterIsMerge(r, front);
      if last.Add? {
        assert (Added(front) + [last.labels])[..|Added(front)|] == Added(front);
      } else {
        assert Added(calls) == Added(front);
      }
    }
  }

  /** Looking a label up in the merge finds the value added last. */
  lemma {:induction false} LastAddedWins(first: Labels, more: seq<Labels>, key: string)
    ensures key in MergeAll(first, more) <==> key in first || exists i :: 0 <= i < |more| && key in more[i]
    ensures forall i :: 0 <= i < |more| && key in more[i] && (forall j :: i < j < |more| ==> key !in more[j]) ==>
              MergeAll(first, more)[key] == more[i][key]
    ensures key in first && (forall j :: 0 <= j < |more| ==> key !in more[j]) ==>
              MergeAll(first, more)[key] == first[key]
  {
    if more == [] {
    } else {
      var front, last := more[..|more| - 1], more[|more| - 1];
      LastAddedWins(first, front, key);
      if key in last { assert key in more[|more| - 1]; }
      if i :| 0 <= i < |front| && key in front[i] { assert more[i] == front[i]; }
    }
  }

  /** The object handed out raw is the cached one: a label written through it from outside leaves the
      caches as they were, and they are coherent afterwards exactly when nothing is cached or the write
      changed nothing. */
  method OutsideWrite(c: Codec, k: K8sObj, r: Resource)
    requires Sound(c) && k.Coherent(c)
    modifies k.obj
    ensures k.json == old(k.json) && k.yaml == old(k.yaml) && k.obj.resource == r
    ensures k.Coherent(c) <==> (k.json.None? && k.yaml.None?) || r == old(k.obj.resource)
  {
    k.obj.resource := r;
  }
}
