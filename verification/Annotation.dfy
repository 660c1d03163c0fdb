/** The last-applied annotation: the pruned serialisation of an object, zipped and base64 encoded, kept
    among the object's own annotations and left out of the serialisation. */
module Annotation {
  import opened Prelude
  import opened Prune
  import opened JsonText
  import Base64

  type Annots = map<string, string>

  /** The JSON document of an object; an empty annotation map is not part of it. */
  function Document(metadata: Fields, rest: Fields, annots: Annots): Fields {
    rest["metadata" := Obj(if annots == map[] then metadata
                           else metadata["annotations" := Obj(map k | k in annots :: Str(annots[k]))])]
  }

  function Others(annots: Option<Annots>, key: string): Annots {
    if annots.None? then map[] else annots.value - {key}
  }

  /** Go's lookup of a possibly missing key. */
  function Previous(annots: Option<Annots>, key: string): string {
    if annots.Some? && key in annots.value then annots.value[key] else ""
  }

  datatype Original = Nothing | Content(b: Bytes) | Unreadable | NotEncoded(text: string)

  class ApiObject {
    const metadata: Fields
    const rest: Fields
    var annotations: Option<Annots>

    constructor (metadata: Fields, rest: Fields, annotations: Option<Annots>)
      ensures this.metadata == metadata && this.rest == rest && this.annotations == annotations
    {
      this.metadata, this.rest, this.annotations := metadata, rest, annotations;
    }

    function Serialised(c: Codec): Option<Bytes>
      reads this
    {
      c.marshal(Obj(Document(metadata, rest, if annotations.None? then map[] else annotations.value)))
    }
  }

  /** Serialising without the key. The key is put back afterwards, with an empty text where there was
      none, but not when marshalling fails. */
  method GetModifiedConfiguration(c: Codec, key: string, obj: ApiObject) returns (r: Option<Bytes>)
    modifies obj
    ensures var others := Others(old(obj.annotations), key);
      && r == c.marshal(Obj(Document(obj.metadata, obj.rest, others)))
      && obj.annotations == if r.Some? then Some(others[key := Previous(old(obj.annotations), key)])
                            else if others == map[] then None else Some(others)
  {
    var annots: Annots := if obj.annotations.None? then map[] else obj.annotations.value;
    var original := if key in annots then annots[key] else "";
    annots := annots - {key};
    obj.annotations := Some(annots);
    if annots == map[] { obj.annotations := None; }
    r := obj.Serialised(c);
    if r.None? { return; }
    annots := annots[key := original];
    obj.annotations := Some(annots);
  }

  /** When zipping fails the annotation has been overwritten with an empty text by then, in the object's
      own map if it has one. */
  method SetOriginalConfiguration(c: Codec, key: string, obj: ApiObject, original: Bytes) returns (ok: bool)
    modifies obj
    ensures ok == (original == [] || c.zip(original).Some?)
    ensures var a := old(obj.annotations);
      obj.annotations ==
        if original == [] then a
        else if c.zip(original).Some?
            then Some((if a.None? then map[] else a.value)[key := Base64.Encode(c.zip(original).value)])
        else if a.Some? then Some(a.value[key := ""]) else None
  {
    if |original| < 1 { return true; }
    var zipped := c.zip(original);
    if zipped.None? {
      if obj.annotations.Some? { obj.annotations := Some(obj.annotations.value[key := ""]); }
      return false;
    }
    var annots: Annots := if obj.annotations.None? then map[] else obj.annotations.value;
    obj.annotations := Some(annots[key := Base64.Encode(zipped.value)]);
    ok := true;
  }

  /** What setting the annotation answers and leaves, in terms of the annotations before. */
  function Applied(c: Codec, key: string, metadata: Fields, rest: Fields, annots: Option<Annots>)
    : (bool, Option<Annots>)
  {
    var others := Others(annots, key);
    var text := c.marshal(Obj(Document(metadata, rest, others)));
    if text.None? then (false, if others == map[] then None else Some(others))
    else
      var pruned := WithoutNulls(c, text.value);
      if pruned.None? then (false, Some(others[key := Previous(annots, key)]))
      else if pruned.value == [] then (true, Some(others[key := Previous(annots, key)]))
      else if c.zip(pruned.value).None? then (false, Some(others[key := ""]))
      else (true, Some(others[key := Base64.Encode(c.zip(pruned.value).value)]))
  }

  method SetLastAppliedAnnotation(c: Codec, key: string, obj: ApiObject) returns (ok: bool)
    modifies obj
    ensures (ok, obj.annotations) == Applied(c, key, obj.metadata, obj.rest, old(obj.annotations))
  {
    var modified := GetModifiedConfiguration(c, key, obj);
    if modified.None? { return false; }
    var pruned := DeleteNullInJson(c, modified.value);
    if pruned.None? { return false; }
    ghost var before := obj.annotations.value;
    ok := SetOriginalConfiguration(c, key, obj, pruned.value);
    assert forall v: string {:trigger before[key := v]} ::
             before[key := v] == Others(old(obj.annotations), key)[key := v];
  }

  function OriginalOf(c: Codec, key: string, annots: Option<Annots>): Original {
    if annots.None? || key !in annots.value then Nothing
    else
      var text := annots.value[key];
      var decoded := Base64.Decode(text);
      if decoded.Some? && c.looksZipped(decoded.value) then
        var content := c.unzip(decoded.value);
        if content.Some? then Content(content.value) else Unreadable
      else NotEncoded(text)
  }

  method GetOriginalConfiguration(c: Codec, key: string, obj: ApiObject) returns (r: Original)
    ensures r == OriginalOf(c, key, obj.annotations)
    ensures r.Nothing? <==> obj.annotations.None? || key !in obj.annotations.value
    ensures obj.annotations.Some? && key in obj.annotations.value ==>
              var text := obj.annotations.value[key];
              var bytes := Base64.Decode(text);
              if bytes.None? || !c.looksZipped(bytes.value) then r == NotEncoded(text)
              else r == match c.unzip(bytes.value) case Some(b) => Content(b) case None => Unreadable
  {
    if obj.annotations.None? { return Nothing; }
    if key !in obj.annotations.value { return Nothing; }
    var original := obj.annotations.value[key];
    var decoded := Base64.Decode(original);
    if decoded.Some? {
      if c.looksZipped(decoded.value) {
        var content := c.unzip(decoded.value);
        return if content.Some? then Content(content.value) else Unreadable;
      }
    }
    r := NotEncoded(original);
  }

  // ---------------------------------------------------------------- what comes out of it

  /** The document shows every annotation it is made with, and only those, next to the rest of the object. */
  lemma DocumentShows(metadata: Fields, rest: Fields, annots: Annots)
    ensures var d := Document(metadata, rest, annots);
      && d.Keys == rest.Keys + {"metadata"} && (forall k :: k in rest && k != "metadata" ==> d[k] == rest[k])
      && d["metadata"].Obj?
      && var m := d["metadata"].fields;
      && (forall k :: k in metadata && k != "annotations" ==> k in m && m[k] == metadata[k])
      && (annots == map[] ==> m == metadata)
      && (annots != map[] ==>
          && "annotations" in m && m["annotations"].Obj? && m["annotations"].fields.Keys == annots.Keys
          && forall k :: k in annots ==> m["annotations"].fields[k] == Str(annots[k]))
  {
  }

  /** Setting succeeds exactly when the object without the annotation can be serialised, its pruned form too,
      and the archive be written; the annotation is then the encoded archive, and every other one stays. */
  lemma SettingSucceedsIff(c: Codec, key: string, metadata: Fields, rest: Fields, annots: Option<Annots>)
    requires Sound(c)
    ensures var doc := Document(metadata, rest, if annots.None? then map[] else annots.value - {key});
      var pruned := c.marshal(Obj(PruneObj(doc)));
      var after := Applied(c, key, metadata, rest, annots);
      && (after.0 <==> c.marshal(Obj(doc)).Some? && pruned.Some? && c.zip(pruned.value).Some?)
      && (after.0 ==>
          && after.1.Some? && key in after.1.value
          && after.1.value[key] == Base64.Encode(c.zip(pruned.value).value)
          && forall k :: k != key ==>
               (k in after.1.value <==> annots.Some? && k in annots.value)
               && (k in after.1.value ==> after.1.value[k] == annots.value[k]))
  {
    var doc := Document(metadata, rest, Others(annots, key));
    if c.marshal(Obj(doc)).Some? {
      assert c.unmarshal(c.marshal(Obj(doc)).value) == Map(doc);
    }
  }

  /** Every other annotation survives, also when setting fails half way. */
  lemma OthersSurvive(c: Codec, key: string, metadata: Fields, rest: Fields, annots: Option<Annots>)
    ensures Others(Applied(c, key, metadata, rest, annots).1, key) == Others(annots, key)
    ensures var after := Applied(c, key, metadata, rest, annots).1;
      forall k :: k != key ==>
          (after.Some? && k in after.value <==> annots.Some? && k in annots.value)
          && (after.Some? && k in after.value ==> after.value[k] == annots.value[k])
  {
    var others := Others(annots, key);
    var after := Applied(c, key, metadata, rest, annots).1;
    if after.None? {
      assert others == map[];
    } else if key in after.value {
      PutAndRemove(others, key, after.value[key]);
    } else {
      assert others - {key} == others;
    }
  }

  lemma PutAndRemove(others: Annots, key: string, v: string)
    requires key !in others
    ensures others[key := v] - {key} == others
  {
  }

  /** Setting the annotation again changes nothing and answers the same, because the key is not part of
      what is serialised. */
  lemma SettingIsIdempotent(c: Codec, key: string, metadata: Fields, rest: Fields, annots: Option<Annots>)
    ensures var once := Applied(c, key, metadata, rest, annots);
      Applied(c, key, metadata, rest, once.1) == once
  {
    OthersSurvive(c, key, metadata, rest, annots);
  }

  /** Once set, reading the annotation gives back exactly the pruned serialisation of the object without it. */
  lemma ReadsBackPruned(c: Codec, key: string, metadata: Fields, rest: Fields, annots: Option<Annots>)
    requires Sound(c) && Applied(c, key, metadata, rest, annots).0
    ensures var pruned := c.marshal(Obj(PruneObj(Document(metadata, rest, Others(annots, key)))));
      pruned.Some? && OriginalOf(c, key, Applied(c, key, metadata, rest, annots).1) == Content(pruned.value)
  {
    var doc := Document(metadata, rest, Others(annots, key));
    assert c.unmarshal(c.marshal(Obj(doc)).value) == Map(doc);
    var pruned := c.marshal(Obj(PruneObj(doc))).value;
    Base64.DecodeEncode(c.zip(pruned).value);
  }

  // ---------------------------------------------------------------- what a failing call leaves behind

  /** A failing call leaves the annotations as they were exactly when: marshalling failed and they were
      absent, or present, not empty and without the key; or a later step failed, the key was there, and, if
      it was zipping that failed, with an empty text. */
  lemma FailureLeavesAnnotationsIff(c: Codec, key: string, metadata: Fields, rest: Fields, annots: Option<Annots>)
    requires !Applied(c, key, metadata, rest, annots).0
    ensures var text := c.marshal(Obj(Document(metadata, rest, Others(annots, key))));
      Applied(c, key, metadata, rest, annots).1 == annots <==>
        if text.None? then annots.None? || (annots.value != map[] && key !in annots.value)
        else annots.Some? && key in annots.value && (WithoutNulls(c, text.value).Some? ==> annots.value[key] == "")
  {
    var after, others := Applied(c, key, metadata, rest, annots).1, Others(annots, key);
    if annots.Some? {
      assert others == annots.value <==> key !in annots.value;
      if key in annots.value {
        assert annots.value == others[key := annots.value[key]];
        if after.Some? && key in after.value {
          assert after.value == annots.value ==> after.value[key] == annots.value[key];
        }
      }
    }
  }

  // Each of these takes a library that fails although everything it does write reads back.

  /** The annotation is lost: an object that cannot be marshalled. */
  lemma MarshalFailureLosesIt(c: Codec, key: string, metadata: Fields, rest: Fields)
    requires Sound(c) && c.marshal == ((v: Json) => None)
    ensures Applied(c, key, metadata, rest, Some(map[key := "old"])) == (false, None)
  {
    assert map[key := "old"] - {key} == map[];
  }

  /** An annotation appears, empty: an object without annotations whose pruned form cannot be marshalled. */
  lemma PruneFailureLeavesEmpty(c: Codec, key: string, metadata: Fields, rest: Fields, text: Bytes)
    requires Sound(c) && c.marshal(Obj(Document(metadata, rest, map[]))) == Some(text) && WithoutNulls(c, text) == None
    ensures Applied(c, key, metadata, rest, None) == (false, Some(map[key := ""]))
  {
  }

  /** And it is overwritten with an empty text when zipping fails, which an archive in memory does not do in
      practice. */
  lemma ZipFailureEmptiesIt(c: Codec, key: string, metadata: Fields, rest: Fields, text: Bytes, pruned: Bytes)
    requires Sound(c) && c.marshal(Obj(Document(metadata, rest, map[]))) == Some(text)
    requires WithoutNulls(c, text) == Some(pruned) && c.zip(pruned) == None
    ensures Applied(c, key, metadata, rest, Some(map[key := "old"])) == (false, Some(map[key := ""]))
  {
    assert map[key := "old"] - {key} == map[];
  }
}
