/** The JSON:API renderer: the include and sparse-fieldset query
    parameters, primary data rendered as one resource object or a list of
    them, and the top-level document around it. */
module Renderers {
  import opened Wrappers
  import opened Strings
  import opened Values
  import opened Include
  import opened Schema
  import opened Rendering
  import opened QueryKeys

  /** The response being rendered: whether it reports an exception. */
  datatype Response = Response(exception: bool)

  /** A non-empty renderer context: the request and the response, each
      present or not. */
  datatype RendererContext = RendererContext(request: Option<Request>, response: Option<Response>)

  /** The data handed to the renderer: its value (`Null` for `None`), the
      schema its serializer declares (`None` when the data carries no
      serializer), and its `meta` and `links` attributes. */
  datatype Payload = Payload(value: Value, schema: Option<SchemaDecl>, meta: Dict, links: Dict)

  /** The renderer's class-level `meta` and `jsonapi` members. */
  datatype Config = Config(meta: Dict, jsonapi: Value)

  // ---------------------------------------------------------------------
  // query parameters

  /** `query_params.get(k, default)`. */
  function QueryGet(q: seq<(string, string)>, k: string, default: string): (r: string)
    ensures (forall i :: 0 <= i < |q| ==> q[i].0 != k) ==> r == default
    ensures forall i :: (0 <= i < |q| && q[i].0 == k && forall j :: 0 <= j < i ==> q[j].0 != k) ==> r == q[i].1
    decreases |q|
  {
    if |q| == 0 then default
    else if q[0].0 == k then q[0].1
    else
      var r := QueryGet(q[1..], k, default);
      assert forall i :: 0 < i < |q| ==> q[i] == q[1..][i - 1];
      r
  }

  /** `get_include`: the parsed `include` parameter of the request; the
      empty tree without a request. Its paths are exactly the prefixes of
      the listed dotted paths. */
  function GetInclude(rc: RendererContext): (r: IncludeTree)
    ensures rc.request.None? ==> r == Empty
    ensures forall p :: HasPath(r, p) <==>
              |p| == 0 || (rc.request.Some? && Covered(Split(QueryGet(rc.request.value.query, "include", ""), ','), p))
    ensures WellFormed(r)
  {
    if rc.request.Some? then
      var s := QueryGet(rc.request.value.query, "include", "");
      forall p ensures HasPath(ParseInclude(s), p) <==> |p| == 0 || Covered(Split(s, ','), p) {
        ParseIncludePaths(s, p);
      }
      ParseInclude(s)
    else
      forall p ensures HasPath(Empty, p) <==> |p| == 0 {
        EmptyPaths(p);
      }
      Empty
  }

  /** The resource type inside `fields[...]`, when `key` is a sparse
      fieldset parameter. */
  function FieldsType(key: string): Option<string> {
    MatchBracketed("fields[", key, IsFieldsChar)
  }

  /** The fieldsets of a query: each `fields[type]` parameter's value split
      on commas, under its type; a later parameter for the same type
      replaces an earlier one. */
  function FieldsFrom(q: seq<(string, string)>): (r: map<string, seq<string>>)
    ensures forall t :: t in r ==> exists i :: 0 <= i < |q| && FieldsType(q[i].0) == Some(t)
    decreases |q|
  {
    if |q| == 0 then map[]
    else
      var prefix := q[..|q| - 1];
      var prev := FieldsFrom(prefix);
      var last := q[|q| - 1];
      assert forall i :: 0 <= i < |prefix| ==> prefix[i] == q[i];
      match FieldsType(last.0)
      case None => prev
      case Some(t) => prev[t := Split(last.1, ',')]
  }

  /** `get_fields`: no fieldsets without a request. */
  function GetFields(rc: RendererContext): (r: map<string, seq<string>>)
    ensures rc.request.None? ==> r == map[]
  {
    if rc.request.Some? then FieldsFrom(rc.request.value.query) else map[]
  }

  /** Every fieldset parameter names a fieldset, and the fieldset is the
      value of the last parameter for its type, split on commas: joining it
      back gives that value. */
  lemma {:induction false} FieldsFromLastWins(q: seq<(string, string)>, t: string, i: nat)
    requires i < |q| && FieldsType(q[i].0) == Some(t)
    requires forall j :: i < j < |q| ==> FieldsType(q[j].0) != Some(t)
    ensures t in FieldsFrom(q)
    ensures FieldsFrom(q)[t] == Split(q[i].1, ',')
    ensures Join(FieldsFrom(q)[t], ',') == q[i].1
    decreases |q|
  {
    var prefix := q[..|q| - 1];
    if i < |prefix| {
      assert prefix[i] == q[i];
      assert forall j :: i < j < |prefix| ==> prefix[j] == q[j];
      FieldsFromLastWins(prefix, t, i);
    }
  }

  // ---------------------------------------------------------------------
  // primary data

  /** One item of a primary data list rendered; an item that is not a
      dictionary cannot be subscripted for its id. */
  function RenderOne(item: Value, s: ResourceObject, ctx: Context): Result<Rendered, Error> {
    if item.Obj? then Render(s, item.fields, ctx) else Err(TypeError("indices must be integers"))
  }

  /** The loop of `render_list` over already rendered items: the blocks in
      order and the included resources appended in order, stopping at the
      first error. */
  function Collect(rs: seq<Result<Rendered, Error>>): (r: Result<(seq<Value>, seq<Dict>), Error>)
    ensures r.Ok? <==> forall i :: 0 <= i < |rs| ==> rs[i].Ok?
    ensures r.Ok? ==> |r.value.0| == |rs|
    ensures r.Ok? ==> forall i :: 0 <= i < |rs| ==> r.value.0[i] == Obj(rs[i].value.block)
    ensures r.Err? ==> exists i :: 0 <= i < |rs| && rs[i].Err? && r.error == rs[i].error
                                   && forall j :: 0 <= j < i ==> rs[j].Ok?
    decreases |rs|
  {
    if |rs| == 0 then Ok(([], []))
    else
      var prefix := rs[..|rs| - 1];
      var last := rs[|rs| - 1];
      assert forall i :: 0 <= i < |prefix| ==> prefix[i] == rs[i];
      var prev := Collect(prefix);
      if prev.Err? then Err(prev.error)
      else if last.Err? then Err(last.error)
      else Ok((prev.value.0 + [Obj(last.value.block)], prev.value.1 + last.value.included))
  }

  /** Reference definition: the included resources of every item, item by
      item. */
  function IncludedOf(rs: seq<Result<Rendered, Error>>): seq<Dict>
    requires forall i :: 0 <= i < |rs| ==> rs[i].Ok?
    decreases |rs|
  {
    if |rs| == 0 then [] else rs[0].value.included + IncludedOf(rs[1..])
  }

  lemma {:induction false} IncludedOfAppend(rs: seq<Result<Rendered, Error>>, x: Result<Rendered, Error>)
    requires forall i :: 0 <= i < |rs| ==> rs[i].Ok?
    requires x.Ok?
    ensures IncludedOf(rs + [x]) == IncludedOf(rs) + x.value.included
    decreases |rs|
  {
    if |rs| == 0 {
      assert rs + [x] == [x];
      assert IncludedOf([x]) == x.value.included + IncludedOf([]);
    } else {
      assert (rs + [x])[1..] == rs[1..] + [x];
      IncludedOfAppend(rs[1..], x);
    }
  }

  /** The included resources collected are those of the items,
      concatenated in item order, duplicates kept. */
  lemma {:induction false} CollectIncluded(rs: seq<Result<Rendered, Error>>)
    requires Collect(rs).Ok?
    ensures Collect(rs).value.1 == IncludedOf(rs)
    decreases |rs|
  {
    if |rs| > 0 {
      var prefix := rs[..|rs| - 1];
      var last := rs[|rs| - 1];
      assert forall i :: 0 <= i < |prefix| ==> prefix[i] == rs[i];
      CollectIncluded(prefix);
      IncludedOfAppend(prefix, last);
      assert prefix + [last] == rs;
    }
  }

  /** `render_list`: every item rendered with the schema, in order. */
  function RenderList(items: seq<Value>, s: ResourceObject, ctx: Context): (r: Result<(seq<Value>, seq<Dict>), Error>)
    ensures r.Ok? <==> forall i :: 0 <= i < |items| ==> RenderOne(items[i], s, ctx).Ok?
    ensures r.Ok? ==> |r.value.0| == |items|
    ensures r.Ok? ==> forall i :: 0 <= i < |items| ==> r.value.0[i] == Obj(RenderOne(items[i], s, ctx).value.block)
    ensures r.Ok? ==> r.value.1 == IncludedOf(RenderedItems(items, s, ctx))
    ensures r.Err? ==> exists i :: 0 <= i < |items| && RenderOne(items[i], s, ctx) == Err(r.error)
                                   && forall j :: 0 <= j < i ==> RenderOne(items[j], s, ctx).Ok?
  {
    var rs := RenderedItems(items, s, ctx);
    if Collect(rs).Ok? then CollectIncluded(rs); Collect(rs) else Collect(rs)
  }

  /** Every item rendered with the schema, in order. */
  function RenderedItems(items: seq<Value>, s: ResourceObject, ctx: Context): (rs: seq<Result<Rendered, Error>>)
    ensures |rs| == |items|
    ensures forall i :: 0 <= i < |items| ==> rs[i] == RenderOne(items[i], s, ctx)
  {
    seq(|items|, i requires 0 <= i < |items| => RenderOne(items[i], s, ctx))
  }

  /** The context `render_data` gives the schema: the request, the include
      tree and the fieldsets. */
  function DataContext(rc: RendererContext, includes: IncludeTree, link: LinkRenderer): Context {
    Context(rc.request, includes, GetFields(rc), link)
  }

  /** `render_data`: a dictionary renders as one resource object, a list
      as a list of them (each item a dictionary rendered with the schema,
      their included resources concatenated in item order), anything else
      as no primary data. Data without a serializer has no schema; the
      schema's construction errors and the rendering errors propagate. */
  function RenderData(p: Payload, rc: RendererContext, includes: IncludeTree, link: LinkRenderer)
    : (r: Result<(Option<Value>, seq<Dict>), Error>)
    ensures p.schema.None? ==> r == Err(NoSchema)
    ensures (p.schema.Some? && !p.value.Obj? && !p.value.Arr?) ==> r == Ok((None, []))
    ensures (p.schema.Some? && (p.value.Obj? || p.value.Arr?) && NewResourceObject(p.schema.value).Err?) ==>
              r == Err(NewResourceObject(p.schema.value).error)
    ensures (p.schema.Some? && p.value.Obj? && NewResourceObject(p.schema.value).Ok?) ==>
              var one := Render(NewResourceObject(p.schema.value).value, p.value.fields, DataContext(rc, includes, link));
              (one.Err? ==> r == Err(one.error))
              && (one.Ok? ==> r == Ok((Some(Obj(one.value.block)), one.value.included)))
    ensures (r.Ok? && p.value.Arr?) ==>
              var s := NewResourceObject(p.schema.value).value;
              var ctx := DataContext(rc, includes, link);
              r.value.0.Some? && r.value.0.value.Arr? && |r.value.0.value.items| == |p.value.items|
              && (forall i :: 0 <= i < |p.value.items| ==>
                    p.value.items[i].Obj? && Render(s, p.value.items[i].fields, ctx).Ok?
                    && r.value.0.value.items[i] == Obj(Render(s, p.value.items[i].fields, ctx).value.block))
              && r.value.1 == IncludedOf(RenderedItems(p.value.items, s, ctx))
    ensures (p.schema.Some? && p.value.Arr? && NewResourceObject(p.schema.value).Ok?) ==>
              var all := RenderList(p.value.items, NewResourceObject(p.schema.value).value, DataContext(rc, includes, link));
              all.Err? ==> r == Err(all.error)
  {
    if p.schema.None? then Err(NoSchema)
    else
      var ctx := DataContext(rc, includes, link);
      match p.value
      case Obj(fields) =>
        var s :- NewResourceObject(p.schema.value);
        var one :- Render(s, fields, ctx);
        Ok((Some(Obj(one.block)), one.included))
      case Arr(items) =>
        var s :- NewResourceObject(p.schema.value);
        var all :- RenderList(items, s, ctx);
        Ok((Some(Arr(all.0)), all.1))
      case _ => Ok((None, []))
  }

  // ---------------------------------------------------------------------
  // the document

  /** The included resources as a list member. */
  function IncludedMember(inc: seq<Dict>): Dict {
    if |inc| > 0 then [("included", Arr(seq(|inc|, i requires 0 <= i < |inc| => Obj(inc[i]))))] else []
  }

  /** The members between `jsonapi` and `meta`, and the `meta` collected so
      far: `errors` for an exception; otherwise `data` and `included` as
      rendered, or, for data without a schema, the data under `meta`. */
  function Body(p: Payload, rc: RendererContext, exception: bool, includes: IncludeTree, link: LinkRenderer, meta: Dict)
    : Result<(Dict, Dict), Error>
  {
    if exception then Ok(([("errors", Arr([p.value]))], meta))
    else
      match RenderData(p, rc, includes, link)
      case Err(e) => if e == NoSchema then Ok(([], Put(meta, "data", p.value))) else Err(e)
      case Ok((data, inc)) =>
        Ok(((if data.Some? then [("data", data.value)] else []) + IncludedMember(inc), meta))
  }

  /** `JSONAPIRenderer.render`, before JSON encoding: `None` stands for the
      empty byte string returned for `None` data or a missing context. */
  function RenderDocument(cfg: Config, p: Payload, rc: Option<RendererContext>, link: LinkRenderer)
    : (r: Result<Option<Dict>, Error>)
    ensures (r.Ok? && r.value.None?) <==> (p.value == Null || rc.None?)
    ensures (p.value != Null && rc.Some? && rc.value.response.None?) ==> r == Err(KeyError("response"))
  {
    if p.value == Null || rc.None? then Ok(None)
    else
      var includes := GetInclude(rc.value);
      var head := Optional("jsonapi", cfg.jsonapi);
      var meta := Update([], cfg.meta);
      if rc.value.response.None? then Err(KeyError("response"))
      else
        var body :- Body(p, rc.value, rc.value.response.value.exception, includes, link, meta);
        var allMeta := Update(body.1, p.meta);
        var links := Update([], p.links);
        Ok(Some(head + body.0 + Optional("meta", Obj(allMeta)) + Optional("links", Obj(links))))
  }
}
