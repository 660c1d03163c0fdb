/** Pruning and status removal as the program calls them: on JSON texts, with everything that can fail. */
module JsonText {
  import opened Prelude
  import opened Prune
  import PruneLimit
  import Base64

  type Bytes = seq<Base64.byte>

  /** Decoding into a Go map: an error, the nil map for a JSON null, or the fields of an object. */
  datatype Decoded = Malformed | NilMap | Map(fields: Fields)

  /** The JSON and zip libraries, with their failures, and content sniffing. */
  datatype Codec = Codec(
    marshal: Json -> Option<Bytes>,
    unmarshal: Bytes -> Decoded,
    zip: Bytes -> Option<Bytes>,
    unzip: Bytes -> Option<Bytes>,
    looksZipped: Bytes -> bool)

  /** What is taken for granted of the libraries: what they write they read back, an archive is
      recognised as one, and no JSON text is empty. */
  ghost predicate Sound(c: Codec) {
    && (forall m: Fields :: c.marshal(Obj(m)).Some? ==> c.unmarshal(c.marshal(Obj(m)).value) == Map(m))
    && (c.marshal(Null).Some? ==> c.unmarshal(c.marshal(Null).value) == NilMap)
    && (forall v: Json :: c.marshal(v).Some? ==> c.marshal(v).value != [])
    && (forall b: Bytes :: c.zip(b).Some? ==> c.looksZipped(c.zip(b).value) && c.unzip(c.zip(b).value) == Some(b))
  }

  /** What the text is rewritten to; pruning a nil map makes an empty one, removing a key from it leaves it nil. */
  function WithoutNulls(c: Codec, text: Bytes): Option<Bytes> {
    match c.unmarshal(text)
    case Malformed => None
    case NilMap => c.marshal(Obj(map[]))
    case Map(m) => c.marshal(Obj(PruneObj(m)))
  }

  function WithoutStatus(c: Codec, text: Bytes): Option<Bytes> {
    match c.unmarshal(text)
    case Malformed => None
    case NilMap => c.marshal(Null)
    case Map(m) => c.marshal(Obj(m - {"status"}))
  }

  method DeleteNullInJson(c: Codec, text: Bytes) returns (r: Option<Bytes>)
    ensures r == WithoutNulls(c, text)
    ensures match c.unmarshal(text) {
              case Malformed => r == None
              case NilMap => r == c.marshal(Obj(map[]))
              case Map(m) => r == c.marshal(Obj(PruneObj(m)))
            }
    ensures Sound(c) && c.unmarshal(text).Map? && r.Some? ==>
              c.unmarshal(r.value) == Map(PruneObj(c.unmarshal(text).fields))
  {
    var patchMap := c.unmarshal(text);
    if patchMap.Malformed? { return None; }
    var filtered := DeleteNullInObj(if patchMap.Map? then patchMap.fields else map[]);
    r := c.marshal(Obj(filtered));
    if Sound(c) && patchMap.Map? { RewrittenTextsDecode(c, text); }
  }

  method DeleteStatusField(c: Codec, text: Bytes) returns (r: Option<Bytes>)
    ensures r == WithoutStatus(c, text)
    ensures match c.unmarshal(text) {
              case Malformed => r == None
              case NilMap => r == c.marshal(Null)
              case Map(m) => r == c.marshal(Obj(m - {"status"}))
            }
    ensures Sound(c) && c.unmarshal(text).Map? && r.Some? ==>
              c.unmarshal(r.value) == Map(c.unmarshal(text).fields - {"status"})
  {
    var objectMap := c.unmarshal(text);
    if objectMap.Malformed? { return None; }
    if objectMap.Map? { objectMap := Map(objectMap.fields - {"status"}); }
    r := c.marshal(if objectMap.Map? then Obj(objectMap.fields) else Null);
    if Sound(c) && objectMap.Map? { RewrittenTextsDecode(c, text); }
  }

  /** The rewritten texts decode to the pruned object, and to the object without its status. */
  lemma RewrittenTextsDecode(c: Codec, text: Bytes)
    requires Sound(c) && c.unmarshal(text).Map?
    ensures WithoutNulls(c, text).Some? ==>
              c.unmarshal(WithoutNulls(c, text).value) == Map(PruneObj(c.unmarshal(text).fields))
    ensures WithoutStatus(c, text).Some? ==>
              c.unmarshal(WithoutStatus(c, text).value) == Map(c.unmarshal(text).fields - {"status"})
  {
    assert c.marshal(Obj(PruneObj(c.unmarshal(text).fields))) == WithoutNulls(c, text);
    assert c.marshal(Obj(c.unmarshal(text).fields - {"status"})) == WithoutStatus(c, text);
  }

  /** Pruning a text and removing its status commute, byte for byte, whenever both can be done at all. */
  lemma TextRewritesCommute(c: Codec, text: Bytes)
    requires Sound(c) && WithoutNulls(c, text).Some? && WithoutStatus(c, text).Some?
    ensures WithoutNulls(c, WithoutStatus(c, text).value) == WithoutStatus(c, WithoutNulls(c, text).value)
  {
    var d := c.unmarshal(text);
    if d.Map? {
      RewrittenTextsDecode(c, text);
      PruneLimit.PruneCommutesWithStatusRemoval(d.fields, 1);
      assert PruneLimit.Passes(d.fields, 0) == d.fields;
    } else {
      assert c.unmarshal(c.marshal(Obj(map[])).value) == Map(map[]);
      var none: Fields := map[];
      assert none - {"status"} == none;
    }
  }
}
