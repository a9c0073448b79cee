/** Rendering followed by parsing: a resource object rendered by a schema
    parses back, through the same schema, to the data it was rendered
    from. */
module RoundTrip {
  import opened Wrappers
  import opened Values
  import opened Schema
  import opened Rendering
  import opened RenderingFacts
  import opened Parsing

  /** No two fields share an internal name. */
  predicate DistinctNames(fs: seq<Field>) {
    forall i, j :: 0 <= i < j < |fs| ==> fs[i].name != fs[j].name
  }

  /** The rendered attributes hold each field under its wire name exactly
      when the data holds it under its internal name, with the same value. */
  lemma {:induction false} AttrEntriesFind(fs: seq<Field>, data: Dict, f: Field)
    requires DistinctWires(fs) && f in fs
    ensures Find(AttrEntries(fs, data), f.wire) == Find(data, f.name)
    decreases |fs|
  {
    var prefix := fs[..|fs| - 1];
    var last := fs[|fs| - 1];
    AttrEntriesKeys(prefix, data);
    if f == last {
      assert last.wire !in KeySet(AttrEntries(prefix, data)) by {
        forall g | g in prefix ensures g.wire != last.wire {
          var i :| 0 <= i < |prefix| && prefix[i] == g;
          assert fs[i] == g;
        }
      }
    } else {
      var i :| 0 <= i < |fs| && fs[i] == f;
      assert prefix[i] == f;
      assert f.wire != last.wire;
      AttrEntriesFind(prefix, data, f);
    }
  }

  lemma {:induction false} LastAttrValueAbsent(attrs: seq<Field>, src: Dict, k: string)
    requires forall a :: a in attrs ==> a.name != k
    ensures LastAttrValue(attrs, src, k) == None
    decreases |attrs|
  {
    if |attrs| > 0 {
      assert attrs[|attrs| - 1] in attrs;
      LastAttrValueAbsent(attrs[..|attrs| - 1], src, k);
    }
  }

  /** With distinct names, the attribute parsed into a name is the one
      declared with it. */
  lemma {:induction false} LastAttrValueUnique(attrs: seq<Field>, src: Dict, f: Field)
    requires DistinctNames(attrs) && f in attrs
    ensures LastAttrValue(attrs, src, f.name) == Find(src, f.wire)
    decreases |attrs|
  {
    var prefix := attrs[..|attrs| - 1];
    var last := attrs[|attrs| - 1];
    if f == last {
      if !Has(src, f.wire) {
        forall a | a in prefix ensures a.name != f.name {
          var i :| 0 <= i < |prefix| && prefix[i] == a;
          assert attrs[i] == a;
        }
        LastAttrValueAbsent(prefix, src, f.name);
      }
    } else {
      var i :| 0 <= i < |attrs| && attrs[i] == f;
      assert prefix[i] == f;
      assert last.name != f.name;
      LastAttrValueUnique(prefix, src, f);
    }
  }

  /** Parsing rendered attributes gives back every present attribute's
      value under its internal name; absent ones keep what the accumulator
      had. */
  lemma AttributesRoundTrip(attrs: seq<Field>, data: Dict, acc: Dict, f: Field)
    requires DistinctWires(attrs) && DistinctNames(attrs) && f in attrs
    ensures ParseAttrs(attrs, Obj(AttrEntries(attrs, data)), acc).Ok?
    ensures Find(ParseAttrs(attrs, Obj(AttrEntries(attrs, data)), acc).value, f.name)
         == if Has(data, f.name) then Find(data, f.name) else Find(acc, f.name)
  {
    var src := AttrEntries(attrs, data);
    ParseAttrsObject(attrs, src, acc);
    LastAttrValueUnique(attrs, src, f);
    AttrEntriesFind(attrs, data, f);
  }

  lemma OptionalFind(k: string, v: Value, key: string)
    ensures Find(Optional(k, v), key) == if key == k && Truthy(v) then Some(v) else None
  {
  }

  /** Looking a key up in the optional members after `id` and `type`:
      `attributes` and `relationships` are found in their own member. */
  lemma TailMembers(attrs: Dict, rels: Dict, links: Dict, meta: Value, key: string)
    requires key == "attributes" || key == "relationships"
    ensures var a, r := Optional("attributes", Obj(attrs)), Optional("relationships", Obj(rels));
            Find(a + r + Optional("links", Obj(links)) + Optional("meta", meta), key)
            == if key == "attributes" then Find(a, key) else Find(r, key)
  {
    var a := Optional("attributes", Obj(attrs));
    var r := Optional("relationships", Obj(rels));
    var l := Optional("links", Obj(links));
    var m := Optional("meta", meta);
    OptionalFind("attributes", Obj(attrs), key);
    OptionalFind("relationships", Obj(rels), key);
    OptionalFind("links", Obj(links), key);
    OptionalFind("meta", meta, key);
    FindAppend(a + r + l, m, key);
    FindAppend(a + r, l, key);
    FindAppend(a, r, key);
  }

  /** The members of a block laid out as `ResourceObject.render` lays it
      out, as `dict.get` sees them. */
  lemma BlockMembers(id: Value, rtype: string, attrs: Dict, rels: Dict, links: Dict, meta: Value)
    ensures var b := [("id", id), ("type", Str(rtype))] + Optional("attributes", Obj(attrs))
                     + Optional("relationships", Obj(rels)) + Optional("links", Obj(links)) + Optional("meta", meta);
            GetOrNull(b, "type") == Str(rtype)
            && GetOrNull(b, "id") == id
            && GetOrNull(b, "attributes") == (if |attrs| > 0 then Obj(attrs) else Null)
            && GetOrNull(b, "relationships") == (if |rels| > 0 then Obj(rels) else Null)
  {
    var head: Dict := [("id", id), ("type", Str(rtype))];
    var a := Optional("attributes", Obj(attrs));
    var r := Optional("relationships", Obj(rels));
    var l := Optional("links", Obj(links));
    var m := Optional("meta", meta);
    var tail := a + r + l + m;
    assert head + a + r + l + m == head + tail;
    FindAppend(head, tail, "type");
    FindAppend(head, tail, "id");
    FindAppend(head, tail, "attributes");
    FindAppend(head, tail, "relationships");
    TailMembers(attrs, rels, links, meta, "attributes");
    TailMembers(attrs, rels, links, meta, "relationships");
    OptionalFind("attributes", Obj(attrs), "attributes");
    OptionalFind("relationships", Obj(rels), "relationships");
  }

  lemma RenderedMembers(s: ResourceObject, data: Dict, ctx: Context)
    requires Render(s, data, ctx).Ok?
    ensures var b := Render(s, data, ctx).value.block;
            var attrs := RenderAttributes(s, data, ctx);
            var rels := RenderRelationships(s, data, ctx).value.block;
            GetOrNull(b, "type") == Str(s.rtype)
            && GetOrNull(b, "id") == Str(PyStr(Get(data, s.idField)))
            && GetOrNull(b, "attributes") == (if |attrs| > 0 then Obj(attrs) else Null)
            && GetOrNull(b, "relationships") == (if |rels| > 0 then Obj(rels) else Null)
  {
    BlockMembers(Str(PyStr(Get(data, s.idField))), s.rtype, RenderAttributes(s, data, ctx),
                 RenderRelationships(s, data, ctx).value.block, RenderLinks(s.links, data, ctx), s.meta);
  }

  /** A resource object rendered without a sparse fieldset for its type,
      by a schema without relationships, parses back to the data: every
      attribute the data holds comes back with its value, no attribute the
      data lacks appears, and the id comes back as the string it was
      rendered as unless that string is empty. */
  lemma ParseRender(s: ResourceObject, data: Dict, ctx: Context)
    requires s.relationships == []
    requires s.rtype !in ctx.fields
    requires DistinctWires(s.attributes) && DistinctNames(s.attributes)
    requires forall f :: f in s.attributes ==> f.name != s.idField
    requires Render(s, data, ctx).Ok?
    ensures Parse(s, Render(s, data, ctx).value.block).Ok?
    ensures forall f :: f in s.attributes ==>
              Find(Parse(s, Render(s, data, ctx).value.block).value, f.name) == Find(data, f.name)
    ensures Find(Parse(s, Render(s, data, ctx).value.block).value, s.idField)
         == if PyStr(Get(data, s.idField)) == "" then None else Some(Str(PyStr(Get(data, s.idField))))
  {
    RenderedMembers(s, data, ctx);
    var b := Render(s, data, ctx).value.block;
    var id := Str(PyStr(Get(data, s.idField)));
    var withId: Dict := if Truthy(id) then [(s.idField, id)] else [];
    var src := RenderAttributes(s, data, ctx);
    assert src == AttrEntries(s.attributes, data);
    assert RenderRelationships(s, data, ctx).value.block == [];
    if |src| == 0 {
      forall f | f in s.attributes ensures Find(data, f.name) == None {
        AttrEntriesFind(s.attributes, data, f);
      }
      assert Parse(s, b) == Ok(withId);
    } else {
      forall f | f in s.attributes
        ensures ParseAttrs(s.attributes, Obj(src), withId).Ok?
        ensures Find(ParseAttrs(s.attributes, Obj(src), withId).value, f.name) == Find(data, f.name)
      {
        AttributesRoundTrip(s.attributes, data, withId, f);
      }
      ParseAttrsObject(s.attributes, src, withId);
      LastAttrValueAbsent(s.attributes, src, s.idField);
      assert Parse(s, b) == ParseAttrs(s.attributes, Obj(src), withId);
    }
  }

  /** A rendered resource identifier has its id, as a string, under `id`. */
  lemma RenderIdHasId(id: ResourceId)
    ensures Subscript(Obj(RenderId(id)), "id") == Ok(Str(PyStr(id.id)))
  {
    FindAppend([("id", Str(PyStr(id.id))), ("type", Str(id.rtype))], Optional("meta", id.meta), "id");
  }

  /** The `data` member of a rendered relationship is what `RelData` made. */
  lemma RelRenderData(spec: RelationshipObject, objData: Dict, v: Value, ctx: Context, includeThis: bool)
    requires RelRender(spec, objData, v, ctx, includeThis).Ok?
    ensures RelData(v).Ok?
    ensures GetOrNull(RelRender(spec, objData, v, ctx, includeThis).value.block, "data") == RelData(v).value
  {
    var data := RelData(v).value;
    var rest := Optional("links", Obj(RenderLinks(spec.links, objData, ctx))) + Optional("meta", spec.meta);
    assert RelRender(spec, objData, v, ctx, includeThis).value.block == [("data", data)] + rest;
    FindAppend([("data", data)], rest, "data");
  }

  /** Parsing an object whose `data` is a rendered list of identifiers
      gives their ids. */
  lemma ParseIdentBlocks(block: Dict, items: seq<Value>)
    requires forall i :: 0 <= i < |items| ==> items[i].Ident?
    requires GetOrNull(block, "data") == Arr(IdentBlocks(items))
    ensures var r := RelParse(Obj(block));
            r.Ok? && r.value.Arr? && |r.value.items| == |items|
            && forall i :: 0 <= i < |items| ==> r.value.items[i] == Str(PyStr(items[i].ident.id))
  {
    var blocks := IdentBlocks(items);
    forall i | 0 <= i < |blocks| ensures Subscript(blocks[i], "id") == Ok(Str(PyStr(items[i].ident.id))) {
      RenderIdHasId(items[i].ident);
    }
  }

  /** Parsing a rendered relationship gives back the ids of its targets:
      the one identifier's id, or each listed identifier's id in order, as
      the strings they were rendered as; `None` stays `None`. */
  lemma RelationshipRoundTrip(spec: RelationshipObject, objData: Dict, v: Value, ctx: Context, includeThis: bool)
    requires RelRender(spec, objData, v, ctx, includeThis).Ok?
    ensures v == Null ==> RelParse(Obj(RelRender(spec, objData, v, ctx, includeThis).value.block)) == Ok(Null)
    ensures v.Ident? ==>
              RelParse(Obj(RelRender(spec, objData, v, ctx, includeThis).value.block)) == Ok(Str(PyStr(v.ident.id)))
    ensures v.Arr? ==>
              var r := RelParse(Obj(RelRender(spec, objData, v, ctx, includeThis).value.block));
              r.Ok? && r.value.Arr? && |r.value.items| == |v.items|
              && forall i :: 0 <= i < |v.items| ==> v.items[i].Ident? && r.value.items[i] == Str(PyStr(v.items[i].ident.id))
  {
    var block := RelRender(spec, objData, v, ctx, includeThis).value.block;
    RelRenderData(spec, objData, v, ctx, includeThis);
    RelDataShapes(v);
    if v.Ident? {
      RenderIdHasId(v.ident);
    } else if v.Arr? {
      assert forall i :: 0 <= i < |v.items| ==> v.items[i].Ident?;
      if |v.items| > 0 {
        ParseIdentBlocks(block, v.items);
      }
    }
  }
}
