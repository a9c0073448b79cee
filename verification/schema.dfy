/** Resource schemas: their declaration and construction, the rendering
    context, and the sparse-fieldset filter. */
module Schema {
  import opened Wrappers
  import opened Strings
  import opened Values
  import opened Transforms
  import opened Include

  /** A relationship as a schema declares it: a bare name, or a name with
      its own relationship object. */
  datatype RelDecl = Bare(name: string) | Declared(name: string, spec: RelationshipObject)

  /** The class attributes of a `ResourceObject` subclass, after any keyword
      arguments given to the constructor have overridden them. Link objects
      are opaque tokens, rendered by the context's link renderer. */
  datatype SchemaDecl = SchemaDecl(
    idField: string,
    rtype: string,
    attributes: seq<string>,
    relationships: seq<RelDecl>,
    transformer: Transformer,
    links: seq<(string, Value)>,
    meta: Value)

  /** The base class defaults: id field `id`, type `unknown`, nothing
      declared, names passed through unchanged. */
  const BaseDecl := SchemaDecl("id", "unknown", [], [], NullTransform, [], Null)

  function RelName(r: RelDecl): string {
    r.name
  }

  /** A bare name gets a default relationship object. */
  function Normalize(r: RelDecl): RelationshipObject {
    match r
    case Bare(_) => RelationshipObject([], Null)
    case Declared(_, spec) => spec
  }

  /** Pair every attribute name with its transformed name, or fail on the
      first name the transformer rejects. */
  function TransformFields(t: Transformer, names: seq<string>): (r: Option<seq<Field>>)
    ensures r.Some? <==> forall i :: 0 <= i < |names| ==> Transform(t, names[i]).Some?
    ensures r.Some? ==> |r.value| == |names|
    ensures r.Some? ==> forall i :: 0 <= i < |names| ==> r.value[i] == Field(names[i], Transform(t, names[i]).value)
  {
    if |names| == 0 then Some([])
    else
      var first := Transform(t, names[0]);
      var rest := TransformFields(t, names[1..]);
      if first.Some? && rest.Some? then Some([Field(names[0], first.value)] + rest.value)
      else
        assert !Transform(t, names[0]).Some?
            || exists i :: 0 <= i < |names[1..]| && !Transform(t, names[1..][i]).Some?;
        None
  }

  function TransformRelationships(t: Transformer, rels: seq<RelDecl>): (r: Option<seq<Relationship>>)
    ensures r.Some? <==> forall i :: 0 <= i < |rels| ==> Transform(t, rels[i].name).Some?
    ensures r.Some? ==> |r.value| == |rels|
    ensures r.Some? ==> forall i :: 0 <= i < |rels| ==>
              r.value[i] == Relationship(rels[i].name, Transform(t, rels[i].name).value, Normalize(rels[i]))
  {
    if |rels| == 0 then Some([])
    else
      var first := Transform(t, rels[0].name);
      var rest := TransformRelationships(t, rels[1..]);
      if first.Some? && rest.Some? then Some([Relationship(rels[0].name, first.value, Normalize(rels[0]))] + rest.value)
      else
        assert !Transform(t, rels[0].name).Some?
            || exists i :: 0 <= i < |rels[1..]| && !Transform(t, rels[1..][i].name).Some?;
        None
  }

  /** `ResourceObject.__init__`: transform and cache every attribute name,
      then normalise the relationships and cache theirs. The only transformer
      that can raise is camelCase-to-underscore, on an empty name. */
  function NewResourceObject(d: SchemaDecl): (r: Result<ResourceObject, Error>)
    ensures r.Err? <==> (d.transformer.CamelCaseToUnderscoreTransform?
                         && ("" in d.attributes || exists i :: 0 <= i < |d.relationships| && d.relationships[i].name == ""))
    ensures r.Err? ==> r.error == IndexError
    ensures r.Ok? ==> (r.value.idField == d.idField && r.value.rtype == d.rtype
                       && r.value.links == d.links && r.value.meta == d.meta)
    ensures r.Ok? ==> |r.value.attributes| == |d.attributes|
    ensures r.Ok? ==> forall i :: 0 <= i < |d.attributes| ==>
                        r.value.attributes[i].name == d.attributes[i]
                        && Some(r.value.attributes[i].wire) == Transform(d.transformer, d.attributes[i])
    ensures r.Ok? ==> |r.value.relationships| == |d.relationships|
    ensures r.Ok? ==> forall i :: 0 <= i < |d.relationships| ==>
                        r.value.relationships[i].name == d.relationships[i].name
                        && Some(r.value.relationships[i].wire) == Transform(d.transformer, d.relationships[i].name)
                        && r.value.relationships[i].spec == Normalize(d.relationships[i])
  {
    var attrs := TransformFields(d.transformer, d.attributes);
    var rels := TransformRelationships(d.transformer, d.relationships);
    if attrs.Some? && rels.Some? then Ok(ResourceObject(d.idField, d.rtype, attrs.value, rels.value, d.links, d.meta))
    else Err(IndexError)
  }

  // ---------------------------------------------------------------------
  // context

  /** Renders a link object, given the owner's data and the request. */
  type LinkRenderer = (Value, Dict, Option<Request>) -> Value

  /** `Context`: the request, the include tree and the sparse fieldsets
      (resource type to the wire names it keeps). The link renderer stands
      for the link objects' own `render` methods. */
  datatype Context = Context(
    request: Option<Request>,
    includes: IncludeTree,
    fields: map<string, seq<string>>,
    renderLink: LinkRenderer)

  /** The context a relationship's targets render in: one level deeper into
      the include tree, the same request and fieldsets. Its include tree is
      strictly shallower when the relationship is included, and empty when
      it is not. */
  function ChildContext(ctx: Context, name: string): (r: Context)
    ensures r.request == ctx.request && r.fields == ctx.fields && r.renderLink == ctx.renderLink
    ensures r.includes == Child(ctx.includes, name)
    ensures !HasKey(ctx.includes, name) ==> r.includes == Empty
    ensures Depth(r.includes) + (if HasKey(ctx.includes, name) then 1 else 0) <= Depth(ctx.includes)
  {
    ChildDepth(ctx.includes, name);
    ctx.(includes := Child(ctx.includes, name))
  }

  // ---------------------------------------------------------------------
  // sparse fieldsets

  /** `items` is an order-preserving subsequence of `all`. */
  predicate IsSubseq<T(==,!new)>(items: seq<T>, all: seq<T>)
    decreases |all|
  {
    |items| == 0
    || (|all| > 0 && if items[0] == all[0] then IsSubseq(items[1..], all[1..]) else IsSubseq(items, all[1..]))
  }

  /** The elements of `items` that satisfy `keep`, in order. */
  function Keep<T(==,!new)>(items: seq<T>, keep: T -> bool): (r: seq<T>)
    ensures IsSubseq(r, items)
    ensures forall x :: multiset(r)[x] == if keep(x) then multiset(items)[x] else 0
    ensures forall x :: x in r <==> x in items && keep(x)
    ensures |r| <= |items|
  {
    if |items| == 0 then []
    else
      var rest := Keep(items[1..], keep);
      assert items == [items[0]] + items[1..];
      if keep(items[0]) then
        assert ([items[0]] + rest)[1..] == rest;
        [items[0]] + rest
      else
        rest
  }

  /** `filter_by_fields`: everything when the fieldsets do not name the
      schema's type, otherwise the items whose transformed name the
      fieldset for that type lists, in declared order. */
  function FilterByFields<T(==,!new)>(rtype: string, fields: map<string, seq<string>>, items: seq<T>, wire: T -> string): (r: seq<T>)
    ensures rtype !in fields ==> r == items
    ensures IsSubseq(r, items)
    ensures rtype in fields ==>
      forall x :: multiset(r)[x] == if wire(x) in fields[rtype] then multiset(items)[x] else 0
    ensures forall x :: x in r <==> x in items && (rtype in fields ==> wire(x) in fields[rtype])
  {
    if rtype !in fields then
      SubseqRefl(items);
      items
    else Keep(items, (x: T) => wire(x) in fields[rtype])
  }

  lemma {:induction false} SubseqRefl<T(!new)>(s: seq<T>)
    ensures IsSubseq(s, s)
    decreases |s|
  {
    if |s| > 0 {
      SubseqRefl(s[1..]);
    }
  }

  /** Dropping the first element of a subsequence keeps it a subsequence. */
  lemma {:induction false} SubseqTail<T(!new)>(items: seq<T>, all: seq<T>)
    requires |items| > 0 && IsSubseq(items, all)
    ensures IsSubseq(items[1..], all)
    decreases |all|, 0
  {
    if items[0] == all[0] {
      SubseqCons(items[1..], all[1..], all[0]);
      assert [all[0]] + all[1..] == all;
    } else {
      SubseqTail(items, all[1..]);
      SubseqCons(items[1..], all[1..], all[0]);
      assert [all[0]] + all[1..] == all;
    }
  }

  /** A subsequence stays one when an element is put in front. */
  lemma {:induction false} SubseqCons<T(!new)>(items: seq<T>, all: seq<T>, x: T)
    requires IsSubseq(items, all)
    ensures IsSubseq(items, [x] + all)
    decreases |all|, 1
  {
    assert ([x] + all)[1..] == all;
    if |items| > 0 && items[0] == x {
      SubseqTail(items, all);
    }
  }
}
