/** Rendering: a resource schema applied to a data dictionary gives a
    JSON:API resource object and the flat list of included resources. The
    functions below recurse through relationships into included targets;
    every step into a target descends one level of the include tree, so the
    depth of that tree bounds the recursion. */
module Rendering {
  import opened Wrappers
  import opened Strings
  import opened Values
  import opened Include
  import opened Schema

  /** A rendered object and the resources it includes. */
  datatype Rendered = Rendered(block: Dict, included: seq<Dict>)

  /** An optional member: present only when its value is truthy. */
  function Optional(k: string, v: Value): Dict {
    if Truthy(v) then [(k, v)] else []
  }

  /** `ResourceIdObject.render`: `id` as a string, `type`, and `meta` when
      it is truthy. */
  function RenderId(id: ResourceId): Dict {
    [("id", Str(PyStr(id.id))), ("type", Str(id.rtype))] + Optional("meta", id.meta)
  }

  /** `render_links`: every link token rendered against the owner's data,
      in declared order. */
  function RenderLinks(links: seq<(string, Value)>, data: Dict, ctx: Context): Dict
    decreases |links|
  {
    if |links| == 0 then []
    else
      var last := links[|links| - 1];
      Put(RenderLinks(links[..|links| - 1], data, ctx), last.0, ctx.renderLink(last.1, data, ctx.request))
  }

  /** The wire name and value of every field present in the data. */
  function AttrEntries(attrs: seq<Field>, data: Dict): Dict
    decreases |attrs|
  {
    if |attrs| == 0 then []
    else
      var prev := AttrEntries(attrs[..|attrs| - 1], data);
      var a := attrs[|attrs| - 1];
      match Find(data, a.name)
      case None => prev
      case Some(v) => Put(prev, a.wire, v)
  }

  function SparseAttributes(s: ResourceObject, ctx: Context): seq<Field> {
    FilterByFields(s.rtype, ctx.fields, s.attributes, (f: Field) => f.wire)
  }

  /** `render_attributes`. */
  function RenderAttributes(s: ResourceObject, data: Dict, ctx: Context): Dict {
    AttrEntries(SparseAttributes(s, ctx), data)
  }

  /** The declared relationship names. */
  function RelNames(rels: seq<Relationship>): set<string> {
    set r | r in rels :: r.name
  }

  /** The first key of the include tree that names no declared
      relationship. */
  function FirstInvalid(keys: seq<(string, IncludeTree)>, names: set<string>): (r: Option<string>)
    ensures r.None? <==> forall i :: 0 <= i < |keys| ==> keys[i].0 in names
    ensures r.Some? ==> r.value !in names
    ensures r.Some? ==> exists i :: 0 <= i < |keys| && keys[i].0 == r.value
                          && forall j :: 0 <= j < i ==> keys[j].0 in names
    decreases |keys|
  {
    if |keys| == 0 then None
    else if keys[0].0 !in names then Some(keys[0].0)
    else
      var r := FirstInvalid(keys[1..], names);
      assert r.Some? ==> exists i :: 0 <= i < |keys| && keys[i].0 == r.value
                          && forall j :: 0 <= j < i ==> keys[j].0 in names by {
        if r.Some? {
          var i :| 0 <= i < |keys[1..]| && keys[1..][i].0 == r.value
                   && forall j :: 0 <= j < i ==> keys[1..][j].0 in names;
          assert keys[i + 1].0 == r.value;
          forall j | 0 <= j < i + 1 ensures keys[j].0 in names {
            if j > 0 {
              assert keys[j] == keys[1..][j - 1];
            }
          }
        }
      }
      r
  }

  /** The relationships rendered: those the sparse fieldset keeps and the
      data holds, in declared order. */
  function SparseRelationships(s: ResourceObject, data: Dict, ctx: Context): seq<Relationship> {
    var filtered := FilterByFields(s.rtype, ctx.fields, s.relationships, (r: Relationship) => r.wire);
    Keep(filtered, (r: Relationship) => Has(data, r.name))
  }

  /** Python's iteration over a value: a list yields its items, a string
      its characters, a dictionary its keys. */
  function Items(v: Value): Result<seq<Value>, Error> {
    match v
    case Arr(items) => Ok(items)
    case Str(s) => Ok(seq(|s|, i requires 0 <= i < |s| => Str([s[i]])))
    case Obj(fields) => Ok(seq(|fields|, i requires 0 <= i < |fields| => Str(fields[i].0)))
    case _ => Err(TypeError("object is not iterable"))
  }

  /** Every item rendered as a resource identifier; anything that is not an
      identifier object has no `render`. */
  function IdBlocks(items: seq<Value>): Result<seq<Value>, Error>
    decreases |items|
  {
    if |items| == 0 then Ok([])
    else
      var prev :- IdBlocks(items[..|items| - 1]);
      var last := items[|items| - 1];
      if last.Ident? then Ok(prev + [Obj(RenderId(last.ident))])
      else Err(AttributeError("render"))
  }

  /** The `data` member of a relationship object: a falsy value verbatim,
      one identifier rendered, or a sequence of identifiers rendered in
      order. */
  function RelData(v: Value): Result<Value, Error> {
    if !Truthy(v) then Ok(v)
    else if v.Ident? then Ok(Obj(RenderId(v.ident)))
    else
      var items :- Items(v);
      var ids :- IdBlocks(items);
      Ok(Arr(ids))
  }

  /** `ResourceObject.render`. The id field is the one key the data must
      hold; `id` (as a string) and `type` always lead the object, whatever
      the fieldsets remove. */
  function Render(s: ResourceObject, data: Dict, ctx: Context): (r: Result<Rendered, Error>)
    ensures !Has(data, s.idField) ==> r == Err(KeyError(s.idField))
    ensures Has(data, s.idField) ==> (r.Ok? <==> RenderRelationships(s, data, ctx).Ok?)
    ensures r.Ok? ==> |r.value.block| >= 2 && r.value.block[0] == ("id", Str(PyStr(Get(data, s.idField))))
                      && r.value.block[1] == ("type", Str(s.rtype))
    decreases Depth(ctx.includes), 6, 0
  {
    match Find(data, s.idField)
    case None => Err(KeyError(s.idField))
    case Some(id) =>
      var attrs := RenderAttributes(s, data, ctx);
      var rels :- RenderRelationships(s, data, ctx);
      var links := RenderLinks(s.links, data, ctx);
      Ok(Rendered(
           [("id", Str(PyStr(id))), ("type", Str(s.rtype))]
           + Optional("attributes", Obj(attrs))
           + Optional("relationships", Obj(rels.block))
           + Optional("links", Obj(links))
           + Optional("meta", s.meta),
           rels.included))
  }

  /** `render_relationships`: every top-level include key must name a
      declared relationship; then each kept relationship is rendered under
      its wire name and its included resources are appended in order. */
  function RenderRelationships(s: ResourceObject, data: Dict, ctx: Context): (r: Result<Rendered, Error>)
    ensures (exists i :: 0 <= i < |ctx.includes.children| && ctx.includes.children[i].0 !in RelNames(s.relationships))
            ==> r.Err? && r.error.IncludeInvalid?
    decreases Depth(ctx.includes), 5, 0
  {
    match FirstInvalid(ctx.includes.children, RelNames(s.relationships))
    case Some(key) => Err(IncludeInvalid("Invalid relationship to include: " + key))
    case None => RenderRels(data, ctx, SparseRelationships(s, data, ctx))
  }

  function RenderRels(data: Dict, ctx: Context, rels: seq<Relationship>): Result<Rendered, Error>
    decreases Depth(ctx.includes), 4, |rels|
  {
    if |rels| == 0 then Ok(Rendered([], []))
    else
      var prev :- RenderRels(data, ctx, rels[..|rels| - 1]);
      var rel := rels[|rels| - 1];
      var one :- RenderRelationship(data, rel, ctx);
      Ok(Rendered(Put(prev.block, rel.wire, Obj(one.block)), prev.included + one.included))
  }

  /** `render_relationship`: the relationship is included when its name is
      a key of the include tree; its targets render one level deeper. */
  function RenderRelationship(data: Dict, rel: Relationship, ctx: Context): Result<Rendered, Error>
    decreases Depth(ctx.includes), 3, 0
  {
    match Find(data, rel.name)
    case None => Err(KeyError(rel.name))
    case Some(v) => RelRender(rel.spec, data, v, ChildContext(ctx, rel.name), HasKey(ctx.includes, rel.name))
  }

  /** `RelationshipObject.render`. The included resources are computed
      before `data`; where both can fail they fail at the same item, so the
      first error is the one the interleaved loop raises. */
  function RelRender(spec: RelationshipObject, objData: Dict, relData: Value, ctx: Context, includeThis: bool)
    : (r: Result<Rendered, Error>)
    ensures r.Ok? ==> RelData(relData).Ok? && |r.value.block| >= 1 && r.value.block[0] == ("data", RelData(relData).value)
    ensures !(includeThis && Truthy(relData)) ==> (r.Ok? <==> RelData(relData).Ok?)
    ensures (r.Ok? && !(includeThis && Truthy(relData))) ==> r.value.included == []
    decreases Depth(ctx.includes) + (if includeThis then 1 else 0), 2, 0
  {
    var included :- if includeThis && Truthy(relData) then RelIncluded(relData, ctx) else Ok([]);
    var data :- RelData(relData);
    var links := RenderLinks(spec.links, objData, ctx);
    Ok(Rendered([("data", data)] + Optional("links", Obj(links)) + Optional("meta", spec.meta), included))
  }

  function RelIncluded(relData: Value, ctx: Context): Result<seq<Dict>, Error>
    decreases Depth(ctx.includes) + 1, 1, 0
  {
    if relData.Ident? then RenderIncluded(relData.ident, ctx)
    else
      var items :- Items(relData);
      IncludedAll(items, ctx)
  }

  /** Each target in order contributes its own block and its included
      resources; nothing is deduplicated. */
  function IncludedAll(items: seq<Value>, ctx: Context): Result<seq<Dict>, Error>
    decreases Depth(ctx.includes) + 1, 0, |items| + 1
  {
    if |items| == 0 then Ok([])
    else
      var prev :- IncludedAll(items[..|items| - 1], ctx);
      var last := items[|items| - 1];
      if !last.Ident? then Err(AttributeError("render"))
      else
        var inc :- RenderIncluded(last.ident, ctx);
        Ok(prev + inc)
  }

  /** `render_included`: the target's schema renders the target's data,
      which contributes its own block and what it includes in turn. An
      identifier that cannot supply them raises `IncludeInvalid`. */
  function RenderIncluded(id: ResourceId, ctx: Context): (r: Result<seq<Dict>, Error>)
    ensures id.target.None? ==> r == Err(IncludeInvalid(""))
    ensures r.Ok? ==> id.target.Some? && Render(id.target.value.schema, id.target.value.data, ctx).Ok?
                      && |r.value| == 1 + |Render(id.target.value.schema, id.target.value.data, ctx).value.included|
    decreases Depth(ctx.includes) + 1, 0, 0
  {
    match id.target
    case None => Err(IncludeInvalid(""))
    case Some(t) =>
      var r :- Render(t.schema, t.data, ctx);
      Ok([r.block] + r.included)
  }
}
