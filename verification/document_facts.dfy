/** Properties of the rendered top-level document: which members it has
    on each path through the renderer, and what they hold. */
module DocumentFacts {
  import opened Wrappers
  import opened Values
  import opened Include
  import opened Schema
  import opened Rendering
  import opened Renderers

  /** Looking up a member of a document assembled from its four parts
      finds it in the part that owns that member. */
  lemma DocFind(head: Dict, body: Dict, meta: Dict, links: Dict, k: string)
    requires KeySet(head) <= {"jsonapi"} && KeySet(body) <= {"errors", "data", "included"}
    requires KeySet(meta) <= {"meta"} && KeySet(links) <= {"links"}
    ensures k == "jsonapi" ==> Find(head + body + meta + links, k) == Find(head, k)
    ensures (k == "errors" || k == "data" || k == "included") ==> Find(head + body + meta + links, k) == Find(body, k)
    ensures k == "meta" ==> Find(head + body + meta + links, k) == Find(meta, k)
    ensures k == "links" ==> Find(head + body + meta + links, k) == Find(links, k)
  {
    FindAppend(head + body + meta, links, k);
    FindAppend(head + body, meta, k);
    FindAppend(head, body, k);
  }

  lemma OptionalKeys(k: string, v: Value)
    ensures KeySet(Optional(k, v)) <= {k}
    ensures Find(Optional(k, v), k) == if Truthy(v) then Some(v) else None
  {
  }

  /** The member names the body of a document can hold. */
  lemma BodyKeys(p: Payload, rc: RendererContext, exception: bool, includes: IncludeTree, link: LinkRenderer, meta: Dict)
    requires Body(p, rc, exception, includes, link, meta).Ok?
    ensures KeySet(Body(p, rc, exception, includes, link, meta).value.0) <= {"errors", "data", "included"}
  {
    if !exception {
      var rd := RenderData(p, rc, includes, link);
      if rd.Ok? {
        var (data, inc) := rd.value;
        var d: Dict := if data.Some? then [("data", data.value)] else [];
        assert KeySet(d + IncludedMember(inc)) <= {"data", "included"} by {
          KeySetAppend(d, IncludedMember(inc));
        }
      }
    }
  }

  lemma {:induction false} KeySetAppend(a: Dict, b: Dict)
    ensures KeySet(a + b) == KeySet(a) + KeySet(b)
    decreases |a|
  {
    if |a| == 0 {
      assert a + b == b;
    } else {
      assert (a + b)[1..] == a[1..] + b;
      KeySetAppend(a[1..], b);
    }
  }

  /** The document of a renderer call that produced one, in its parts. */
  lemma DocumentParts(cfg: Config, p: Payload, rc: Option<RendererContext>, link: LinkRenderer)
    requires RenderDocument(cfg, p, rc, link).Ok? && RenderDocument(cfg, p, rc, link).value.Some?
    ensures rc.Some? && rc.value.response.Some?
    ensures var body := Body(p, rc.value, rc.value.response.value.exception, GetInclude(rc.value), link, Update([], cfg.meta));
            body.Ok?
            && RenderDocument(cfg, p, rc, link).value.value
               == Optional("jsonapi", cfg.jsonapi) + body.value.0
                  + Optional("meta", Obj(Update(body.value.1, p.meta))) + Optional("links", Obj(Update([], p.links)))
  {
  }

  /** The members of a document assembled from the renderer's `jsonapi`,
      a body, the collected `meta` and the data's `links`. */
  lemma AssembledMembers(jsonapi: Value, body: Dict, meta: Dict, links: Dict, k: string)
    requires KeySet(body) <= {"errors", "data", "included"}
    ensures var doc := Optional("jsonapi", jsonapi) + body + Optional("meta", Obj(meta)) + Optional("links", Obj(links));
            (k == "jsonapi" ==> Find(doc, k) == if Truthy(jsonapi) then Some(jsonapi) else None)
            && ((k == "errors" || k == "data" || k == "included") ==> Find(doc, k) == Find(body, k))
            && (k == "meta" ==> Find(doc, k) == if |meta| > 0 then Some(Obj(meta)) else None)
            && (k == "links" ==> Find(doc, k) == if |links| > 0 then Some(Obj(links)) else None)
  {
    OptionalKeys("jsonapi", jsonapi);
    OptionalKeys("meta", Obj(meta));
    OptionalKeys("links", Obj(links));
    DocFind(Optional("jsonapi", jsonapi), body, Optional("meta", Obj(meta)), Optional("links", Obj(links)), k);
  }

  /** `d.update(e)` on an empty `d` is empty exactly when `e` is. */
  lemma UpdateEmpty(e: Dict)
    ensures |Update([], e)| > 0 <==> |e| > 0
  {
    assert KeySet(Update([], e)) == KeySet(e);
    if |e| > 0 {
      KeySetIndex(e, e[0].0);
      KeySetIndex(Update([], e), e[0].0);
    }
    if |Update([], e)| > 0 {
      KeySetIndex(Update([], e), Update([], e)[0].0);
      KeySetIndex(e, Update([], e)[0].0);
    }
  }

  /** The members of a produced document, each from the part that owns it. */
  lemma DocumentMembers(cfg: Config, p: Payload, rc: Option<RendererContext>, link: LinkRenderer, k: string)
    requires RenderDocument(cfg, p, rc, link).Ok? && RenderDocument(cfg, p, rc, link).value.Some?
    ensures rc.Some? && rc.value.response.Some?
    ensures var body := Body(p, rc.value, rc.value.response.value.exception, GetInclude(rc.value), link, Update([], cfg.meta));
            var doc := RenderDocument(cfg, p, rc, link).value.value;
            body.Ok?
            && (k == "jsonapi" ==> Find(doc, k) == if Truthy(cfg.jsonapi) then Some(cfg.jsonapi) else None)
            && ((k == "errors" || k == "data" || k == "included") ==> Find(doc, k) == Find(body.value.0, k))
            && (k == "meta" ==> Find(doc, k) == if |Update(body.value.1, p.meta)| > 0 then Some(Obj(Update(body.value.1, p.meta))) else None)
            && (k == "links" ==> Find(doc, k) == if |p.links| > 0 then Some(Obj(Update([], p.links))) else None)
  {
    DocumentParts(cfg, p, rc, link);
    var body := Body(p, rc.value, rc.value.response.value.exception, GetInclude(rc.value), link, Update([], cfg.meta));
    BodyKeys(p, rc.value, rc.value.response.value.exception, GetInclude(rc.value), link, Update([], cfg.meta));
    UpdateEmpty(p.links);
    AssembledMembers(cfg.jsonapi, body.value.0, Update(body.value.1, p.meta), Update([], p.links), k);
  }

  /** The body on the primary-data path. */
  lemma BodyPrimary(p: Payload, rc: RendererContext, includes: IncludeTree, link: LinkRenderer, meta: Dict)
    requires RenderData(p, rc, includes, link).Ok?
    ensures var (data, inc) := RenderData(p, rc, includes, link).value;
            var b := Body(p, rc, false, includes, link, meta);
            b.Ok? && Find(b.value.0, "data") == data && !Has(b.value.0, "errors")
            && (Has(b.value.0, "included") <==> |inc| > 0)
            && (|inc| > 0 ==> Find(b.value.0, "included") == Some(Arr(seq(|inc|, i requires 0 <= i < |inc| => Obj(inc[i])))))
  {
    var (data, inc) := RenderData(p, rc, includes, link).value;
    var d: Dict := if data.Some? then [("data", data.value)] else [];
    assert Body(p, rc, false, includes, link, meta) == Ok((d + IncludedMember(inc), meta));
    FindAppend(d, IncludedMember(inc), "data");
    FindAppend(d, IncludedMember(inc), "included");
    FindAppend(d, IncludedMember(inc), "errors");
  }

  /** An exception is rendered as a one-element `errors` list holding the
      data, and the document has neither `data` nor `included`. */
  lemma DocumentErrors(cfg: Config, p: Payload, rc: RendererContext, link: LinkRenderer)
    requires p.value != Null && rc.response == Some(Response(true))
    ensures RenderDocument(cfg, p, Some(rc), link).Ok? && RenderDocument(cfg, p, Some(rc), link).value.Some?
    ensures var doc := RenderDocument(cfg, p, Some(rc), link).value.value;
            Find(doc, "errors") == Some(Arr([p.value])) && !Has(doc, "data") && !Has(doc, "included")
  {
    DocumentMembers(cfg, p, Some(rc), link, "errors");
    DocumentMembers(cfg, p, Some(rc), link, "data");
    DocumentMembers(cfg, p, Some(rc), link, "included");
  }

  /** Rendered primary data is the `data` member when there is any;
      `included` is present exactly when something was included, listing it
      in order; there is no `errors` member. */
  lemma DocumentPrimary(cfg: Config, p: Payload, rc: RendererContext, link: LinkRenderer)
    requires p.value != Null && rc.response == Some(Response(false))
    requires RenderData(p, rc, GetInclude(rc), link).Ok?
    ensures RenderDocument(cfg, p, Some(rc), link).Ok? && RenderDocument(cfg, p, Some(rc), link).value.Some?
    ensures var doc := RenderDocument(cfg, p, Some(rc), link).value.value;
            var (data, inc) := RenderData(p, rc, GetInclude(rc), link).value;
            Find(doc, "data") == data
            && (Has(doc, "included") <==> |inc| > 0)
            && (|inc| > 0 ==> Find(doc, "included") == Some(Arr(seq(|inc|, i requires 0 <= i < |inc| => Obj(inc[i])))))
            && !Has(doc, "errors")
  {
    BodyPrimary(p, rc, GetInclude(rc), link, Update([], cfg.meta));
    DocumentMembers(cfg, p, Some(rc), link, "errors");
    DocumentMembers(cfg, p, Some(rc), link, "data");
    DocumentMembers(cfg, p, Some(rc), link, "included");
  }

  /** Data without a schema is not primary data: it goes into `meta` under
      `data`, unless the data's own `meta` overrides that key. */
  lemma DocumentNoSchema(cfg: Config, p: Payload, rc: RendererContext, link: LinkRenderer)
    requires p.value != Null && rc.response == Some(Response(false)) && p.schema.None?
    requires DistinctKeys(p.meta)
    ensures RenderDocument(cfg, p, Some(rc), link).Ok? && RenderDocument(cfg, p, Some(rc), link).value.Some?
    ensures var doc := RenderDocument(cfg, p, Some(rc), link).value.value;
            !Has(doc, "data") && !Has(doc, "included") && !Has(doc, "errors")
            && GetOrNull(doc, "meta").Obj?
            && Find(GetOrNull(doc, "meta").fields, "data") == if Has(p.meta, "data") then Find(p.meta, "data") else Some(p.value)
  {
    var meta0 := Update([], cfg.meta);
    var m1 := Put(meta0, "data", p.value);
    DocumentMembers(cfg, p, Some(rc), link, "errors");
    DocumentMembers(cfg, p, Some(rc), link, "data");
    DocumentMembers(cfg, p, Some(rc), link, "included");
    DocumentMembers(cfg, p, Some(rc), link, "meta");
    UpdateFind(m1, p.meta, "data");
    assert "data" in KeySet(Update(m1, p.meta));
  }

  /** A rendering error other than a missing schema propagates. */
  lemma DocumentRenderError(cfg: Config, p: Payload, rc: RendererContext, link: LinkRenderer)
    requires p.value != Null && rc.response == Some(Response(false))
    requires RenderData(p, rc, GetInclude(rc), link).Err?
    requires RenderData(p, rc, GetInclude(rc), link).error != NoSchema
    ensures RenderDocument(cfg, p, Some(rc), link) == Err(RenderData(p, rc, GetInclude(rc), link).error)
  {
  }

  /** The top-level `meta` overlays the data's `meta` on the renderer's:
      a key of the data's `meta` takes its value there, any other key its
      value in the renderer's, and `meta` is absent when both are empty on
      a path that adds nothing of its own. */
  lemma DocumentMeta(cfg: Config, p: Payload, rc: Option<RendererContext>, link: LinkRenderer, k: string)
    requires RenderDocument(cfg, p, rc, link).Ok? && RenderDocument(cfg, p, rc, link).value.Some?
    requires DistinctKeys(cfg.meta) && DistinctKeys(p.meta)
    requires k != "data"
    requires Has(cfg.meta, k) || Has(p.meta, k)
    ensures var doc := RenderDocument(cfg, p, rc, link).value.value;
            GetOrNull(doc, "meta").Obj?
            && Find(GetOrNull(doc, "meta").fields, k) == if Has(p.meta, k) then Find(p.meta, k) else Find(cfg.meta, k)
  {
    DocumentMembers(cfg, p, rc, link, "meta");
    var body := Body(p, rc.value, rc.value.response.value.exception, GetInclude(rc.value), link, Update([], cfg.meta));
    var meta0 := Update([], cfg.meta);
    UpdateFind([], cfg.meta, k);
    assert Find(body.value.1, k) == Find(meta0, k);
    UpdateFind(body.value.1, p.meta, k);
    var all := Update(body.value.1, p.meta);
    assert k in KeySet(all);
    KeySetIndex(all, k);
  }

  /** The data's `links` become the top-level `links` member, present
      exactly when there are any; `jsonapi` is present exactly when the
      renderer's is truthy. */
  lemma DocumentLinksAndVersion(cfg: Config, p: Payload, rc: Option<RendererContext>, link: LinkRenderer, k: string)
    requires RenderDocument(cfg, p, rc, link).Ok? && RenderDocument(cfg, p, rc, link).value.Some?
    requires DistinctKeys(p.links)
    ensures var doc := RenderDocument(cfg, p, rc, link).value.value;
            (Has(doc, "links") <==> |p.links| > 0)
            && (Has(p.links, k) ==> GetOrNull(doc, "links").Obj? && Find(GetOrNull(doc, "links").fields, k) == Find(p.links, k))
            && (Has(doc, "jsonapi") <==> Truthy(cfg.jsonapi))
            && (Truthy(cfg.jsonapi) ==> doc[0] == ("jsonapi", cfg.jsonapi))
  {
    DocumentMembers(cfg, p, rc, link, "links");
    DocumentMembers(cfg, p, rc, link, "jsonapi");
    DocumentParts(cfg, p, rc, link);
    UpdateFind([], p.links, k);
  }
}
