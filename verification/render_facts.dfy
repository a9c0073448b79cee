/** Properties of rendering: the attributes block, the relationships
    block, the include-key check, relationship data and the included
    list. */
module RenderingFacts {
  import opened Wrappers
  import opened Values
  import opened Include
  import opened Schema
  import opened Rendering

  // ---------------------------------------------------------------------
  // attributes

  /** No two elements share a key. */
  predicate DistinctBy<T>(xs: seq<T>, key: T -> string) {
    forall i, j :: 0 <= i < j < |xs| ==> key(xs[i]) != key(xs[j])
  }

  /** No two declared attributes share a wire name. */
  predicate DistinctWires(fs: seq<Field>) {
    DistinctBy(fs, (f: Field) => f.wire)
  }

  /** No two declared relationships share a wire name. */
  predicate DistinctRelWires(rels: seq<Relationship>) {
    DistinctBy(rels, (r: Relationship) => r.wire)
  }

  /** Reference definition: the wire name and value of each field the data
      holds, in order. */
  function PresentPairs(fs: seq<Field>, data: Dict): Dict
    decreases |fs|
  {
    if |fs| == 0 then []
    else (if Has(data, fs[0].name) then [(fs[0].wire, Get(data, fs[0].name))] else []) + PresentPairs(fs[1..], data)
  }

  lemma {:induction false} PresentPairsAppend(fs: seq<Field>, f: Field, data: Dict)
    ensures PresentPairs(fs + [f], data)
         == PresentPairs(fs, data) + (if Has(data, f.name) then [(f.wire, Get(data, f.name))] else [])
    decreases |fs|
  {
    if |fs| == 0 {
      assert fs + [f] == [f] && [f][1..] == [];
    } else {
      var h: Dict := if Has(data, fs[0].name) then [(fs[0].wire, Get(data, fs[0].name))] else [];
      var e: Dict := if Has(data, f.name) then [(f.wire, Get(data, f.name))] else [];
      assert (fs + [f])[0] == fs[0] && (fs + [f])[1..] == fs[1..] + [f];
      PresentPairsAppend(fs[1..], f, data);
      assert h + (PresentPairs(fs[1..], data) + e) == (h + PresentPairs(fs[1..], data)) + e;
    }
  }

  /** The keys of the attributes block are the wire names of the fields the
      data holds. */
  lemma {:induction false} AttrEntriesKeys(fs: seq<Field>, data: Dict)
    ensures KeySet(AttrEntries(fs, data)) == set f | f in fs && Has(data, f.name) :: f.wire
    decreases |fs|
  {
    if |fs| > 0 {
      var prefix := fs[..|fs| - 1];
      var last := fs[|fs| - 1];
      AttrEntriesKeys(prefix, data);
      assert fs == prefix + [last];
      assert forall f :: f in fs <==> f in prefix || f == last;
    }
  }

  /** With distinct wire names, the attributes block is exactly the present
      fields' wire names and values, in declared order. */
  lemma {:induction false} AttrEntriesExact(fs: seq<Field>, data: Dict)
    requires DistinctWires(fs)
    ensures AttrEntries(fs, data) == PresentPairs(fs, data)
    decreases |fs|
  {
    if |fs| > 0 {
      var prefix := fs[..|fs| - 1];
      var last := fs[|fs| - 1];
      assert fs == prefix + [last];
      AttrEntriesExact(prefix, data);
      PresentPairsAppend(prefix, last, data);
      if Has(data, last.name) {
        AttrEntriesKeys(prefix, data);
        assert last.wire !in KeySet(AttrEntries(prefix, data)) by {
          forall f | f in prefix ensures f.wire != last.wire {
            var i :| 0 <= i < |prefix| && prefix[i] == f;
            assert fs[i] == f;
          }
        }
      }
    }
  }

  lemma {:induction false} SubseqMembers<T(!new)>(a: seq<T>, b: seq<T>)
    requires IsSubseq(a, b)
    ensures forall x :: x in a ==> x in b
    decreases |b|
  {
    if |a| > 0 {
      if a[0] == b[0] {
        SubseqMembers(a[1..], b[1..]);
        forall x | x in a ensures x in b {
          if x != a[0] {
            assert x in a[1..];
          }
        }
      } else {
        SubseqMembers(a, b[1..]);
      }
    }
  }

  /** An order-preserving subsequence keeps keys distinct. */
  lemma {:induction false} SubseqDistinct<T(!new)>(a: seq<T>, b: seq<T>, key: T -> string)
    requires IsSubseq(a, b) && DistinctBy(b, key)
    ensures DistinctBy(a, key)
    decreases |b|
  {
    if |a| > 0 {
      assert DistinctBy(b[1..], key) by {
        forall i, j | 0 <= i < j < |b[1..]| ensures key(b[1..][i]) != key(b[1..][j]) {
          assert b[1..][i] == b[i + 1] && b[1..][j] == b[j + 1];
        }
      }
      if a[0] == b[0] {
        SubseqDistinct(a[1..], b[1..], key);
        SubseqMembers(a[1..], b[1..]);
        forall j | 0 < j < |a| ensures key(a[j]) != key(a[0]) {
          assert a[j] == a[1..][j - 1];
          assert a[j] in a[1..];
          assert a[j] in b[1..];
          var m :| 0 <= m < |b[1..]| && b[1..][m] == a[j];
          assert b[m + 1] == a[j];
        }
        forall i, j | 0 <= i < j < |a| ensures key(a[i]) != key(a[j]) {
          if i > 0 {
            assert a[i] == a[1..][i - 1] && a[j] == a[1..][j - 1];
          }
        }
      } else {
        SubseqDistinct(a, b[1..], key);
      }
    }
  }

  /** `render_attributes`: the block's keys are the wire names of declared
      attributes that survive the fieldset and are present in the data. */
  lemma RenderAttributesKeys(s: ResourceObject, data: Dict, ctx: Context)
    ensures forall w :: w in KeySet(RenderAttributes(s, data, ctx)) <==>
              exists f :: f in s.attributes && f.wire == w && Has(data, f.name)
                          && (s.rtype in ctx.fields ==> w in ctx.fields[s.rtype])
  {
    var sparse := SparseAttributes(s, ctx);
    AttrEntriesKeys(sparse, data);
    forall w | w in KeySet(RenderAttributes(s, data, ctx))
      ensures exists f :: f in s.attributes && f.wire == w && Has(data, f.name)
                          && (s.rtype in ctx.fields ==> w in ctx.fields[s.rtype])
    {
      var f :| f in sparse && Has(data, f.name) && f.wire == w;
      assert f in s.attributes;
    }
    forall w, f | f in s.attributes && f.wire == w && Has(data, f.name)
                  && (s.rtype in ctx.fields ==> w in ctx.fields[s.rtype])
      ensures w in KeySet(RenderAttributes(s, data, ctx))
    {
      assert f in sparse;
    }
  }

  /** With distinct wire names the attributes block is exactly the kept,
      present attributes' wire names and values, in declared order. */
  lemma RenderAttributesExact(s: ResourceObject, data: Dict, ctx: Context)
    requires DistinctWires(s.attributes)
    ensures RenderAttributes(s, data, ctx) == PresentPairs(SparseAttributes(s, ctx), data)
  {
    SubseqDistinct(SparseAttributes(s, ctx), s.attributes, (f: Field) => f.wire);
    AttrEntriesExact(SparseAttributes(s, ctx), data);
  }

  // ---------------------------------------------------------------------
  // the relationships block

  /** The wire names of a sequence of relationships. */
  function Wires(rels: seq<Relationship>): set<string> {
    set r | r in rels :: r.wire
  }

  lemma WiresSnoc(rels: seq<Relationship>)
    requires |rels| > 0
    ensures Wires(rels) == Wires(rels[..|rels| - 1]) + {rels[|rels| - 1].wire}
  {
    var prefix, last := rels[..|rels| - 1], rels[|rels| - 1];
    forall w | w in Wires(rels) ensures w in Wires(prefix) + {last.wire} {
      var i :| 0 <= i < |rels| && rels[i].wire == w;
      if i < |rels| - 1 {
        assert prefix[i] == rels[i];
      }
    }
    forall w | w in Wires(prefix) ensures w in Wires(rels) {
      var i :| 0 <= i < |prefix| && prefix[i].wire == w;
      assert rels[i] == prefix[i];
    }
  }

  /** `render_relationships`' loop: the block's keys are the wire names of
      the relationships rendered. */
  lemma {:induction false} RenderRelsKeys(data: Dict, ctx: Context, rels: seq<Relationship>)
    ensures RenderRels(data, ctx, rels).Ok? ==> KeySet(RenderRels(data, ctx, rels).value.block) == Wires(rels)
    decreases |rels|
  {
    if |rels| > 0 && RenderRels(data, ctx, rels).Ok? {
      var prefix := rels[..|rels| - 1];
      var last := rels[|rels| - 1];
      RenderRelsSnoc(data, ctx, rels);
      RenderRelsKeys(data, ctx, prefix);
      var prev := RenderRels(data, ctx, prefix).value.block;
      var one := RenderRelationship(data, last, ctx).value.block;
      assert KeySet(RenderRels(data, ctx, rels).value.block) == KeySet(Put(prev, last.wire, Obj(one)));
      WiresSnoc(rels);
    }
  }

  /** One step of `render_relationships`' loop: the last relationship's
      block goes under its wire name and its included resources go last. */
  lemma RenderRelsSnoc(data: Dict, ctx: Context, rels: seq<Relationship>)
    requires |rels| > 0
    ensures var prev := RenderRels(data, ctx, rels[..|rels| - 1]);
            var last := rels[|rels| - 1];
            var one := RenderRelationship(data, last, ctx);
            RenderRels(data, ctx, rels).Ok? <==> prev.Ok? && one.Ok?
    ensures var prev := RenderRels(data, ctx, rels[..|rels| - 1]);
            var last := rels[|rels| - 1];
            var one := RenderRelationship(data, last, ctx);
            RenderRels(data, ctx, rels).Ok? ==>
              RenderRels(data, ctx, rels).value
              == Rendered(Put(prev.value.block, last.wire, Obj(one.value.block)), prev.value.included + one.value.included)
  {
  }

  /** Each relationship's entry is its own rendering, unless a later
      relationship with the same wire name overwrote it. */
  lemma {:induction false} RenderRelsFind(data: Dict, ctx: Context, rels: seq<Relationship>, i: nat)
    requires RenderRels(data, ctx, rels).Ok?
    requires i < |rels|
    requires forall j :: i < j < |rels| ==> rels[j].wire != rels[i].wire
    ensures RenderRelationship(data, rels[i], ctx).Ok?
    ensures Find(RenderRels(data, ctx, rels).value.block, rels[i].wire)
         == Some(Obj(RenderRelationship(data, rels[i], ctx).value.block))
    decreases |rels|
  {
    var prefix := rels[..|rels| - 1];
    RenderRelsSnoc(data, ctx, rels);
    if i < |rels| - 1 {
      assert prefix[i] == rels[i];
      RenderRelsFind(data, ctx, prefix, i);
    }
  }

  /** The relationships rendered are declared relationships, and keep their
      wire names distinct when the declarations do. */
  lemma SparseRelationshipsDistinct(s: ResourceObject, data: Dict, ctx: Context)
    requires DistinctRelWires(s.relationships)
    ensures DistinctRelWires(SparseRelationships(s, data, ctx))
  {
    var filtered := FilterByFields(s.rtype, ctx.fields, s.relationships, (r: Relationship) => r.wire);
    SubseqDistinct(filtered, s.relationships, (r: Relationship) => r.wire);
    SubseqDistinct(SparseRelationships(s, data, ctx), filtered, (r: Relationship) => r.wire);
  }

  /** `render_relationships`: the block's keys are the wire names of the
      declared relationships that survive the fieldset and are present in
      the data. */
  lemma RenderRelationshipsKeys(s: ResourceObject, data: Dict, ctx: Context)
    ensures RenderRelationships(s, data, ctx).Ok? ==>
              KeySet(RenderRelationships(s, data, ctx).value.block)
              == set r | r in s.relationships && Has(data, r.name)
                         && (s.rtype in ctx.fields ==> r.wire in ctx.fields[s.rtype]) :: r.wire
  {
    if RenderRelationships(s, data, ctx).Ok? {
      var sparse := SparseRelationships(s, data, ctx);
      assert RenderRelationships(s, data, ctx) == RenderRels(data, ctx, sparse);
      RenderRelsKeys(data, ctx, sparse);
      SparseWires(s, data, ctx);
    }
  }

  lemma SparseWires(s: ResourceObject, data: Dict, ctx: Context)
    ensures Wires(SparseRelationships(s, data, ctx))
         == set r | r in s.relationships && Has(data, r.name)
                    && (s.rtype in ctx.fields ==> r.wire in ctx.fields[s.rtype]) :: r.wire
  {
    var sparse := SparseRelationships(s, data, ctx);
    assert forall r :: r in sparse <==> r in s.relationships && Has(data, r.name)
                                         && (s.rtype in ctx.fields ==> r.wire in ctx.fields[s.rtype]);
  }

  /** With distinct wire names, each declared relationship the fieldset
      keeps and the data holds appears under its wire name, holding its own
      rendering. */
  lemma RenderRelationshipsFind(s: ResourceObject, data: Dict, ctx: Context, r: Relationship)
    requires DistinctRelWires(s.relationships)
    requires RenderRelationships(s, data, ctx).Ok?
    requires r in s.relationships && Has(data, r.name)
    requires s.rtype in ctx.fields ==> r.wire in ctx.fields[s.rtype]
    ensures RenderRelationship(data, r, ctx).Ok?
    ensures Find(RenderRelationships(s, data, ctx).value.block, r.wire)
         == Some(Obj(RenderRelationship(data, r, ctx).value.block))
  {
    var sparse := SparseRelationships(s, data, ctx);
    SparseRelationshipsDistinct(s, data, ctx);
    assert r in sparse;
    var i :| 0 <= i < |sparse| && sparse[i] == r;
    assert forall j :: i < j < |sparse| ==> sparse[j].wire != sparse[i].wire;
    RenderRelsFind(data, ctx, sparse, i);
  }

  /** What one rendered relationship adds to `included`: the blocks of its
      targets when its name is an include key and its value is truthy,
      nothing otherwise. */
  function Contribution(data: Dict, ctx: Context, rel: Relationship): seq<Dict> {
    match Find(data, rel.name)
    case None => []
    case Some(v) =>
      if HasKey(ctx.includes, rel.name) && Truthy(v) then
        match RelIncluded(v, ChildContext(ctx, rel.name))
        case Ok(x) => x
        case Err(_) => []
      else []
  }

  /** The contributions of a sequence of relationships, in order. */
  function Contributions(data: Dict, ctx: Context, rels: seq<Relationship>): seq<Dict>
    decreases |rels|
  {
    if |rels| == 0 then []
    else Contributions(data, ctx, rels[..|rels| - 1]) + Contribution(data, ctx, rels[|rels| - 1])
  }

  /** The loop's included list is the relationships' contributions, in
      order. */
  lemma {:induction false} RenderRelsIncluded(data: Dict, ctx: Context, rels: seq<Relationship>)
    ensures RenderRels(data, ctx, rels).Ok? ==>
              RenderRels(data, ctx, rels).value.included == Contributions(data, ctx, rels)
    decreases |rels|
  {
    if |rels| > 0 {
      RenderRelsSnoc(data, ctx, rels);
      RenderRelsIncluded(data, ctx, rels[..|rels| - 1]);
      RenderRelationshipIncluded(data, ctx, rels[|rels| - 1]);
    }
  }

  /** `render_relationship` adds exactly the relationship's contribution. */
  lemma RenderRelationshipIncluded(data: Dict, ctx: Context, rel: Relationship)
    ensures RenderRelationship(data, rel, ctx).Ok? ==>
              RenderRelationship(data, rel, ctx).value.included == Contribution(data, ctx, rel)
  {
    match Find(data, rel.name)
    case None =>
    case Some(v) =>
      var child := ChildContext(ctx, rel.name);
      var inc := HasKey(ctx.includes, rel.name);
      assert RenderRelationship(data, rel, ctx) == RelRender(rel.spec, data, v, child, inc);
  }

  /** `render`: the resource's included list is the concatenation, in
      declared order, of what the rendered relationships named by include
      keys contribute; other relationships contribute nothing. */
  lemma RenderIncludedOrder(s: ResourceObject, data: Dict, ctx: Context)
    ensures Render(s, data, ctx).Ok? ==>
              Render(s, data, ctx).value.included == Contributions(data, ctx, SparseRelationships(s, data, ctx))
    ensures forall r: Relationship :: !HasKey(ctx.includes, r.name) ==> Contribution(data, ctx, r) == []
  {
    RenderRelsIncluded(data, ctx, SparseRelationships(s, data, ctx));
  }

  // ---------------------------------------------------------------------
  // the include-key check

  /** A top-level include key that names no declared relationship makes
      rendering raise `IncludeInvalid` before any relationship is rendered:
      the outcome is the same for any data holding the id and any
      fieldsets. */
  lemma RenderRejectsUnknownInclude(s: ResourceObject, d1: Dict, c1: Context, d2: Dict, c2: Context)
    requires Has(d1, s.idField) && Has(d2, s.idField)
    requires c1.includes == c2.includes
    requires exists i :: 0 <= i < |c1.includes.children| && c1.includes.children[i].0 !in RelNames(s.relationships)
    ensures Render(s, d1, c1).Err? && Render(s, d1, c1).error.IncludeInvalid?
    ensures Render(s, d1, c1) == Render(s, d2, c2)
  {
  }

  /** The key the error names is the first invalid key in include order. */
  lemma RejectedKeyIsFirst(s: ResourceObject, data: Dict, ctx: Context, i: nat)
    requires Has(data, s.idField)
    requires i < |ctx.includes.children|
    requires ctx.includes.children[i].0 !in RelNames(s.relationships)
    requires forall j :: 0 <= j < i ==> ctx.includes.children[j].0 in RelNames(s.relationships)
    ensures Render(s, data, ctx)
         == Err(IncludeInvalid("Invalid relationship to include: " + ctx.includes.children[i].0))
  {
    var key := FirstInvalid(ctx.includes.children, RelNames(s.relationships));
    var k :| 0 <= k < |ctx.includes.children| && ctx.includes.children[k].0 == key.value
             && forall j :: 0 <= j < k ==> ctx.includes.children[j].0 in RelNames(s.relationships);
    assert k == i;
  }

  // ---------------------------------------------------------------------
  // relationship data

  /** The rendered identifiers of a sequence of identifier objects, in
      order. */
  function IdentBlocks(items: seq<Value>): seq<Value>
    requires forall i :: 0 <= i < |items| ==> items[i].Ident?
  {
    seq(|items|, i requires 0 <= i < |items| => Obj(RenderId(items[i].ident)))
  }

  lemma {:induction false} IdBlocksAll(items: seq<Value>)
    ensures (forall i :: 0 <= i < |items| ==> items[i].Ident?) ==> IdBlocks(items) == Ok(IdentBlocks(items))
    ensures (exists i :: 0 <= i < |items| && !items[i].Ident?) ==> IdBlocks(items) == Err(AttributeError("render"))
    decreases |items|
  {
    if |items| > 0 {
      var prefix := items[..|items| - 1];
      IdBlocksAll(prefix);
      if forall i :: 0 <= i < |items| ==> items[i].Ident? {
        assert forall i :: 0 <= i < |prefix| ==> prefix[i].Ident? by {
          forall i | 0 <= i < |prefix| ensures prefix[i].Ident? {
            assert prefix[i] == items[i];
          }
        }
        assert IdBlocks(prefix) == Ok(IdentBlocks(prefix));
        var last := items[|items| - 1];
        assert IdBlocks(items) == Ok(IdentBlocks(prefix) + [Obj(RenderId(last.ident))]);
        var lhs := IdentBlocks(items);
        var rhs := IdentBlocks(prefix) + [Obj(RenderId(last.ident))];
        assert |lhs| == |rhs|;
        forall i | 0 <= i < |lhs| ensures lhs[i] == rhs[i] {
          if i < |prefix| {
            assert rhs[i] == IdentBlocks(prefix)[i];
            assert prefix[i] == items[i];
          }
        }
        assert lhs == rhs;
      }
      if exists i :: 0 <= i < |prefix| && !prefix[i].Ident? {
        var i :| 0 <= i < |prefix| && !prefix[i].Ident?;
        assert !items[i].Ident?;
      }
      if exists i :: 0 <= i < |items| && !items[i].Ident? {
        var i :| 0 <= i < |items| && !items[i].Ident?;
        if i < |prefix| {
          assert !prefix[i].Ident?;
        }
      }
    } else {
      assert IdentBlocks(items) == [];
    }
  }

  /** Relationship `data`: a falsy value (`None`, `[]`, ...) is copied as
      is, so null and the empty list stay distinct; one identifier renders
      as `{id, type, meta?}`; a list of identifiers renders element by
      element in order; a list holding anything else raises. */
  lemma RelDataShapes(v: Value)
    ensures !Truthy(v) ==> RelData(v) == Ok(v)
    ensures v.Ident? ==> RelData(v) == Ok(Obj(RenderId(v.ident)))
    ensures v.Arr? && |v.items| > 0 && (forall i :: 0 <= i < |v.items| ==> v.items[i].Ident?) ==>
              RelData(v) == Ok(Arr(IdentBlocks(v.items)))
    ensures v.Arr? && (exists i :: 0 <= i < |v.items| && !v.items[i].Ident?) ==>
              RelData(v) == Err(AttributeError("render"))
  {
    if v.Arr? {
      IdBlocksAll(v.items);
    }
  }

  /** The relationship's `data` and the rest of its block are the same
      whether or not it is included, and nothing is included when it is
      not. */
  lemma RelRenderIncludeIndependent(spec: RelationshipObject, objData: Dict, v: Value, ctx: Context)
    ensures RelRender(spec, objData, v, ctx, false).Ok? <==> RelData(v).Ok?
    ensures RelRender(spec, objData, v, ctx, false).Ok? ==> RelRender(spec, objData, v, ctx, false).value.included == []
    ensures RelRender(spec, objData, v, ctx, true).Ok? ==>
              RelRender(spec, objData, v, ctx, false) == Ok(Rendered(RelRender(spec, objData, v, ctx, true).value.block, []))
  {
  }

  /** Including an identifier that cannot supply its schema and data raises
      `IncludeInvalid`. */
  lemma IncludeWithoutTarget(spec: RelationshipObject, objData: Dict, id: ResourceId, ctx: Context)
    requires id.target.None?
    ensures RelRender(spec, objData, Ident(id), ctx, true) == Err(IncludeInvalid(""))
  {
    assert RenderIncluded(id, ctx) == Err(IncludeInvalid(""));
    assert RelIncluded(Ident(id), ctx) == Err(IncludeInvalid(""));
  }

  // ---------------------------------------------------------------------
  // the included list

  /** Two results concatenated; the first error wins. */
  function Join(x: Result<seq<Dict>, Error>, y: Result<seq<Dict>, Error>): Result<seq<Dict>, Error> {
    match x
    case Err(e) => Err(e)
    case Ok(u) => (match y
                   case Err(e) => Err(e)
                   case Ok(w) => Ok(u + w))
  }

  /** One step of the loop over targets, on its results alone. */
  function Step(prev: Result<seq<Dict>, Error>, last: Value, inc: Result<seq<Dict>, Error>): Result<seq<Dict>, Error> {
    if prev.Err? then Err(prev.error)
    else if !last.Ident? then Err(AttributeError("render"))
    else if inc.Err? then Err(inc.error)
    else Ok(prev.value + inc.value)
  }

  lemma JoinEmpty(x: Result<seq<Dict>, Error>)
    ensures Join(x, Ok([])) == x
  {
    if x.Ok? {
      assert x.value + [] == x.value;
    }
  }

  /** Appending one step after a join is joining with the step. */
  lemma JoinStep(x: Result<seq<Dict>, Error>, y: Result<seq<Dict>, Error>, last: Value, inc: Result<seq<Dict>, Error>)
    ensures Step(Join(x, y), last, inc) == Join(x, Step(y, last, inc))
  {
    if x.Ok? && y.Ok? && last.Ident? && inc.Ok? {
      assert (x.value + y.value) + inc.value == x.value + (y.value + inc.value);
    }
  }

  /** The included list of a concatenation of targets is the concatenation
      of their included lists; the first error wins. */
  lemma {:induction false} IncludedAllAppend(a: seq<Value>, b: seq<Value>, ctx: Context)
    ensures IncludedAll(a + b, ctx) == Join(IncludedAll(a, ctx), IncludedAll(b, ctx))
    decreases |b|
  {
    if |b| == 0 {
      assert a + b == a;
      JoinEmpty(IncludedAll(a, ctx));
    } else {
      var bp := b[..|b| - 1];
      var last := b[|b| - 1];
      IncludedAllAppend(a, bp, ctx);
      var ab := a + b;
      assert ab[..|ab| - 1] == a + bp;
      assert ab[|ab| - 1] == last;
      IncludedAllSnoc(ab, ctx);
      IncludedAllSnoc(b, ctx);
      var inc := if last.Ident? then RenderIncluded(last.ident, ctx) else Ok([]);
      JoinStep(IncludedAll(a, ctx), IncludedAll(bp, ctx), last, inc);
      assert IncludedAll(ab, ctx) == Step(IncludedAll(a + bp, ctx), last, inc);
    }
  }

  /** One step of the loop over targets. */
  lemma IncludedAllSnoc(items: seq<Value>, ctx: Context)
    requires |items| > 0
    ensures var last := items[|items| - 1];
            IncludedAll(items, ctx)
            == Step(IncludedAll(items[..|items| - 1], ctx), last,
                    if last.Ident? then RenderIncluded(last.ident, ctx) else Ok([]))
  {
  }

  /** One target contributes its own block followed by what it includes. */
  lemma IncludedOne(id: ResourceId, ctx: Context)
    ensures IncludedAll([Ident(id)], ctx) == RenderIncluded(id, ctx)
    ensures RenderIncluded(id, ctx).Ok? ==>
              id.target.Some? && Render(id.target.value.schema, id.target.value.data, ctx).Ok?
              && RenderIncluded(id, ctx).value
                 == [Render(id.target.value.schema, id.target.value.data, ctx).value.block]
                    + Render(id.target.value.schema, id.target.value.data, ctx).value.included
  {
    assert [Ident(id)][..0] == [];
    assert IncludedAll([], ctx) == Ok([]);
    if RenderIncluded(id, ctx).Ok? {
      assert [] + RenderIncluded(id, ctx).value == RenderIncluded(id, ctx).value;
    }
  }

  /** No deduplication: every target contributes at least its own block. */
  lemma {:induction false} IncludedAllLength(items: seq<Value>, ctx: Context)
    ensures IncludedAll(items, ctx).Ok? ==> |IncludedAll(items, ctx).value| >= |items|
    decreases |items|
  {
    if |items| > 0 {
      IncludedAllLength(items[..|items| - 1], ctx);
    }
  }

  /** With no include tree, rendering includes nothing. */
  lemma RenderWithoutInclude(s: ResourceObject, data: Dict, ctx: Context)
    requires ctx.includes == Empty
    ensures Render(s, data, ctx).Ok? ==> Render(s, data, ctx).value.included == []
  {
    RenderRelsWithoutInclude(data, ctx, SparseRelationships(s, data, ctx));
  }

  lemma {:induction false} RenderRelsWithoutInclude(data: Dict, ctx: Context, rels: seq<Relationship>)
    requires ctx.includes == Empty
    ensures RenderRels(data, ctx, rels).Ok? ==> RenderRels(data, ctx, rels).value.included == []
    decreases |rels|
  {
    if |rels| > 0 {
      RenderRelsWithoutInclude(data, ctx, rels[..|rels| - 1]);
      var rel := rels[|rels| - 1];
      assert !HasKey(ctx.includes, rel.name);
      match Find(data, rel.name)
      case None =>
      case Some(v) =>
        RelRenderIncludeIndependent(rel.spec, data, v, ChildContext(ctx, rel.name));
    }
  }
}
