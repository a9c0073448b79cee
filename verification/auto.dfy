/** Schemas generated from serializers: the id field is taken from the
    arguments, the model's primary key or the default `id`; every other
    serializer field becomes a relationship when it is a related field and
    an attribute otherwise; keyword arguments override the result. */
module Auto {
  import opened Wrappers
  import opened Values
  import opened Transforms
  import opened Schema

  /** A serializer field: its name and whether it is a related field. */
  datatype SerializerField = SerializerField(name: string, related: bool)

  /** A model field: its attribute name and whether it is the primary key. */
  datatype ModelField = ModelField(attname: string, primaryKey: bool)

  /** A serializer: its class name, its fields in declared order, and, for
      a model serializer, the fields of its model. */
  datatype Serializer = Serializer(className: string, fields: seq<SerializerField>, model: Option<seq<ModelField>>)

  /** Keyword arguments for the generated class; each given one replaces
      the class attribute of the same name. */
  datatype Overrides = Overrides(
    id: Option<string>,
    rtype: Option<string>,
    attributes: Option<seq<string>>,
    relationships: Option<seq<RelDecl>>,
    transformer: Option<Transformer>,
    links: Option<seq<(string, Value)>>,
    meta: Option<Value>)

  const NoOverrides := Overrides(None, None, None, None, None, None, None)

  /** A generated schema class: its name and its class attributes. */
  datatype AutoSchema = AutoSchema(name: string, decl: SchemaDecl)

  /** The attribute name of the first primary-key field of a model. */
  function FirstPrimaryKey(fields: seq<ModelField>): (r: Option<string>)
    ensures r.None? <==> forall i :: 0 <= i < |fields| ==> !fields[i].primaryKey
    ensures r.Some? ==> exists i :: 0 <= i < |fields| && fields[i].primaryKey && fields[i].attname == r.value
                          && forall j :: 0 <= j < i ==> !fields[j].primaryKey
    decreases |fields|
  {
    if |fields| == 0 then None
    else if fields[0].primaryKey then Some(fields[0].attname)
    else
      var r := FirstPrimaryKey(fields[1..]);
      assert r.Some? ==> exists i :: 0 <= i < |fields| && fields[i].primaryKey && fields[i].attname == r.value
                           && forall j :: 0 <= j < i ==> !fields[j].primaryKey by {
        if r.Some? {
          var i :| 0 <= i < |fields[1..]| && fields[1..][i].primaryKey && fields[1..][i].attname == r.value
                   && forall j :: 0 <= j < i ==> !fields[1..][j].primaryKey;
          assert fields[i + 1] == fields[1..][i];
          forall j | 0 <= j < i + 1 ensures !fields[j].primaryKey {
            if j > 0 {
              assert fields[j] == fields[1..][j - 1];
            }
          }
        }
      }
      r
  }

  /** The id field: the one given when it is not empty; for a model
      serializer the first primary key's attribute name, an empty one
      being an error; `id` otherwise. */
  function ResolveIdField(s: Serializer, idField: string): (r: Result<string, Error>)
    ensures r.Ok? ==> r.value != ""
    ensures idField != "" ==> r == Ok(idField)
    ensures (idField == "" && s.model.None?) ==> r == Ok("id")
    ensures (idField == "" && s.model.Some?) ==>
              (r.Ok? <==> exists i :: 0 <= i < |s.model.value| && s.model.value[i].primaryKey
                                      && s.model.value[i].attname != ""
                                      && forall j :: 0 <= j < i ==> !s.model.value[j].primaryKey)
    ensures (idField == "" && s.model.Some? && r.Ok?) ==>
              exists i :: 0 <= i < |s.model.value| && s.model.value[i].primaryKey
                          && s.model.value[i].attname == r.value
    ensures r.Err? ==> r.error.ValueError?
  {
    if idField != "" then Ok(idField)
    else if s.model.Some? then
      var pk := FirstPrimaryKey(s.model.value);
      if pk.Some? && pk.value != "" then Ok(pk.value)
      else
        assert pk.Some? ==> forall i :: 0 <= i < |s.model.value| && s.model.value[i].primaryKey
                                        && (forall j :: 0 <= j < i ==> !s.model.value[j].primaryKey)
                                        ==> s.model.value[i].attname == pk.value by {
          if pk.Some? {
            var k :| 0 <= k < |s.model.value| && s.model.value[k].primaryKey && s.model.value[k].attname == pk.value
                     && forall j :: 0 <= j < k ==> !s.model.value[j].primaryKey;
            forall i | 0 <= i < |s.model.value| && s.model.value[i].primaryKey
                       && (forall j :: 0 <= j < i ==> !s.model.value[j].primaryKey)
              ensures s.model.value[i].attname == pk.value
            {
              assert !(i < k) && !(k < i);
            }
          }
        }
        Err(ValueError("Unable to find primary key from model"))
    else Ok("id")
  }

  /** The names of fields, in order. */
  function Names(fields: seq<SerializerField>): (r: seq<string>)
    ensures |r| == |fields|
    ensures forall i :: 0 <= i < |fields| ==> r[i] == fields[i].name
  {
    seq(|fields|, i requires 0 <= i < |fields| => fields[i].name)
  }

  /** The names of the fields other than the id field whose relatedness
      is `related`, in declared order. */
  function NamesWhere(fields: seq<SerializerField>, idField: string, related: bool): (r: seq<string>)
    ensures forall n :: n in r <==> n != idField && SerializerField(n, related) in fields
    ensures IsSubseq(r, Names(fields))
    decreases |fields|
  {
    if |fields| == 0 then []
    else
      var rest := NamesWhere(fields[1..], idField, related);
      var f := fields[0];
      assert fields == [f] + fields[1..];
      assert Names(fields) == [f.name] + Names(fields[1..]);
      if f.name != idField && f.related == related then
        assert ([f.name] + rest)[1..] == rest;
        [f.name] + rest
      else
        SubseqCons(rest, Names(fields[1..]), f.name);
        rest
  }

  /** Every field but the id field, split into attributes and relationships,
      each in declared order. */
  function Partition(fields: seq<SerializerField>, idField: string): (r: (seq<string>, seq<string>))
    ensures forall n :: n in r.0 <==> n != idField && SerializerField(n, false) in fields
    ensures forall n :: n in r.1 <==> n != idField && SerializerField(n, true) in fields
    ensures IsSubseq(r.0, Names(fields)) && IsSubseq(r.1, Names(fields))
  {
    (NamesWhere(fields, idField, false), NamesWhere(fields, idField, true))
  }

  /** One step of `NamesWhere`: the first field's name, when it is kept,
      before the names kept from the rest. */
  lemma NamesWhereStep(fields: seq<SerializerField>, idField: string, related: bool)
    requires |fields| > 0
    ensures NamesWhere(fields, idField, related)
            == (if fields[0].name != idField && fields[0].related == related then [fields[0].name] else [])
               + NamesWhere(fields[1..], idField, related)
  {
  }

  /** Dropping every copy of `id` from a multiset with one more element. */
  lemma DropAdded(x: string, m: multiset<string>, id: string)
    ensures (multiset{x} + m)[id := 0] == if x == id then m[id := 0] else multiset{x} + m[id := 0]
  {
  }

  /** Nothing is lost or duplicated: across the two lists each name
      occurs as often as among the serializer's fields, except that the
      fields named like the id field are dropped. */
  lemma {:induction false} PartitionCounts(fields: seq<SerializerField>, idField: string)
    ensures multiset(Partition(fields, idField).0) + multiset(Partition(fields, idField).1)
            == multiset(Names(fields))[idField := 0]
    decreases |fields|
  {
    if |fields| == 0 {
      assert Names(fields) == [];
    } else {
      var f := fields[0];
      PartitionCounts(fields[1..], idField);
      PartitionStep(fields, idField);
      assert Names(fields) == [f.name] + Names(fields[1..]);
      assert multiset(Names(fields)) == multiset{f.name} + multiset(Names(fields[1..]));
      DropAdded(f.name, multiset(Names(fields[1..])), idField);
    }
  }

  /** The first field adds its name to one of the two lists, unless it is
      the id field. */
  lemma PartitionStep(fields: seq<SerializerField>, idField: string)
    requires |fields| > 0
    ensures var (a, b) := Partition(fields, idField);
            var (a', b') := Partition(fields[1..], idField);
            multiset(a) + multiset(b)
            == (if fields[0].name == idField then multiset{} else multiset{fields[0].name}) + multiset(a') + multiset(b')
  {
    NamesWhereStep(fields, idField, false);
    NamesWhereStep(fields, idField, true);
  }

  /** Hence the two lists together are as long as the serializer's
      fields without those named like the id field. */
  lemma PartitionLength(fields: seq<SerializerField>, idField: string)
    ensures |Partition(fields, idField).0| + |Partition(fields, idField).1|
            == |fields| - multiset(Names(fields))[idField]
  {
    var m := multiset(Names(fields));
    PartitionCounts(fields, idField);
    assert m == m[idField := 0] + multiset{}[idField := m[idField]];
  }

  /** The class attributes before the keyword arguments: the resolved id
      field, the type, and the partitioned fields, relationships by bare
      name; everything else from the base class. */
  function Generated(idField: string, apiType: string, fields: seq<SerializerField>): (r: SchemaDecl)
    ensures r.idField == idField && r.rtype == apiType
    ensures r.transformer == BaseDecl.transformer && r.links == BaseDecl.links && r.meta == BaseDecl.meta
    ensures r.attributes == Partition(fields, idField).0
    ensures |r.relationships| == |Partition(fields, idField).1|
    ensures forall i :: 0 <= i < |r.relationships| ==> r.relationships[i] == Bare(Partition(fields, idField).1[i])
  {
    var (attrs, rels) := Partition(fields, idField);
    BaseDecl.(idField := idField, rtype := apiType, attributes := attrs,
              relationships := seq(|rels|, i requires 0 <= i < |rels| => Bare(rels[i])))
  }

  /** `values.update(**kwargs)`: each given keyword replaces its attribute. */
  function ApplyOverrides(d: SchemaDecl, kw: Overrides): (r: SchemaDecl)
    ensures r.idField == kw.id.GetOr(d.idField) && r.rtype == kw.rtype.GetOr(d.rtype)
    ensures r.attributes == kw.attributes.GetOr(d.attributes)
    ensures r.relationships == kw.relationships.GetOr(d.relationships)
    ensures r.transformer == kw.transformer.GetOr(d.transformer)
    ensures r.links == kw.links.GetOr(d.links) && r.meta == kw.meta.GetOr(d.meta)
  {
    SchemaDecl(kw.id.GetOr(d.idField), kw.rtype.GetOr(d.rtype), kw.attributes.GetOr(d.attributes),
               kw.relationships.GetOr(d.relationships), kw.transformer.GetOr(d.transformer),
               kw.links.GetOr(d.links), kw.meta.GetOr(d.meta))
  }

  /** `from_serializer`: the class is named after the serializer; it fails
      exactly when the id field cannot be resolved, and otherwise carries
      the id keyword or the resolved id, and, unless overridden, the
      non-related fields other than the resolved id as attributes. */
  function FromSerializer(s: Serializer, apiType: string, idField: string, kw: Overrides): (r: Result<AutoSchema, Error>)
    ensures r.Ok? <==> ResolveIdField(s, idField).Ok?
    ensures r.Err? ==> r.error.ValueError?
    ensures r.Ok? ==> r.value.name == s.className + "_AutoSchema"
                      && r.value.decl.idField == kw.id.GetOr(ResolveIdField(s, idField).value)
                      && r.value.decl.rtype == kw.rtype.GetOr(apiType)
    ensures (r.Ok? && kw.attributes.None?) ==>
              forall n :: n in r.value.decl.attributes <==>
                            n != ResolveIdField(s, idField).value && SerializerField(n, false) in s.fields
  {
    var id :- ResolveIdField(s, idField);
    Ok(AutoSchema(s.className + "_AutoSchema", ApplyOverrides(Generated(id, apiType, s.fields), kw)))
  }

  // ---------------------------------------------------------------------
  // properties

  /** Without keyword arguments, the generated schema has the resolved id
      field and the type; every other serializer field is an attribute or,
      when related, a relationship; and it transforms nothing. */
  lemma FromSerializerDefaults(s: Serializer, apiType: string, idField: string)
    requires ResolveIdField(s, idField).Ok?
    ensures var r := FromSerializer(s, apiType, idField, NoOverrides);
            var id := ResolveIdField(s, idField).value;
            r.Ok? && r.value.name == s.className + "_AutoSchema"
            && r.value.decl.idField == id && r.value.decl.rtype == apiType
            && r.value.decl.transformer == NullTransform
            && id !in r.value.decl.attributes
            && (forall n :: n in r.value.decl.attributes <==> n != id && SerializerField(n, false) in s.fields)
            && (forall n :: Bare(n) in r.value.decl.relationships <==> n != id && SerializerField(n, true) in s.fields)
  {
    var id := ResolveIdField(s, idField).value;
    var d := FromSerializer(s, apiType, idField, NoOverrides).value.decl;
    var rels := Partition(s.fields, id).1;
    forall n ensures Bare(n) in d.relationships <==> n in rels {
      if n in rels {
        var k :| 0 <= k < |rels| && rels[k] == n;
        assert d.relationships[k] == Bare(n);
      }
    }
  }

  /** A non-model serializer without an explicit id field uses `id`; a
      model serializer uses its model's primary key. */
  lemma IdFieldDefaults(s: Serializer, apiType: string, kw: Overrides)
    requires kw.id.None?
    ensures s.model.None? ==> FromSerializer(s, apiType, "", kw).Ok?
                              && FromSerializer(s, apiType, "", kw).value.decl.idField == "id"
    ensures (s.model.Some? && FromSerializer(s, apiType, "", kw).Ok?) ==>
              exists i :: 0 <= i < |s.model.value| && s.model.value[i].primaryKey
                          && s.model.value[i].attname == FromSerializer(s, apiType, "", kw).value.decl.idField
  {
  }

  /** A model without a primary key is an error even when the keyword
      arguments name an id: the lookup happens before they are applied. */
  lemma MissingPrimaryKeyIgnoresOverrides(s: Serializer, apiType: string, kw: Overrides)
    requires s.model.Some? && forall i :: 0 <= i < |s.model.value| ==> !s.model.value[i].primaryKey
    ensures FromSerializer(s, apiType, "", kw).Err? && FromSerializer(s, apiType, "", kw).error.ValueError?
  {
  }

  /** Keyword arguments win over the generated attributes; attributes
      they do not name keep the generated value. An `id` keyword replaces
      the id field but not the partition, which used the resolved one. */
  lemma OverridesWin(s: Serializer, apiType: string, idField: string, kw: Overrides)
    requires ResolveIdField(s, idField).Ok?
    ensures var d := FromSerializer(s, apiType, idField, kw).value.decl;
            var g := Generated(ResolveIdField(s, idField).value, apiType, s.fields);
            (kw.id.Some? ==> d.idField == kw.id.value) && (kw.id.None? ==> d.idField == g.idField)
            && (kw.rtype.Some? ==> d.rtype == kw.rtype.value) && (kw.rtype.None? ==> d.rtype == apiType)
            && (kw.attributes.Some? ==> d.attributes == kw.attributes.value)
            && (kw.attributes.None? ==> d.attributes == Partition(s.fields, ResolveIdField(s, idField).value).0)
            && (kw.transformer.Some? ==> d.transformer == kw.transformer.value)
            && (kw.transformer.None? ==> d.transformer == NullTransform)
  {
  }

  // ---------------------------------------------------------------------
  // the descriptor

  /** `AutoSchemaDescriptor`: the arguments of `auto_schema` and the class
      generated on first access. */
  datatype Descriptor = Descriptor(apiType: string, idField: string, kwargs: Overrides, cached: Option<AutoSchema>)

  /** `auto_schema`: nothing is generated until first access. */
  function AutoSchemaOf(apiType: string, idField: string, kwargs: Overrides): (r: Descriptor)
    ensures r.cached.None?
  {
    Descriptor(apiType, idField, kwargs, None)
  }

  /** `__get__`: the cached class if there is one; otherwise the class
      generated from the accessing serializer, which is then cached. A
      failed generation caches nothing. */
  function Access(d: Descriptor, s: Serializer): (r: Result<(AutoSchema, Descriptor), Error>)
    ensures d.cached.Some? ==> r == Ok((d.cached.value, d))
    ensures d.cached.None? ==> (r.Ok? <==> FromSerializer(s, d.apiType, d.idField, d.kwargs).Ok?)
    ensures r.Ok? ==> r.value.1 == d.(cached := Some(r.value.0))
  {
    if d.cached.Some? then Ok((d.cached.value, d))
    else
      var schema :- FromSerializer(s, d.apiType, d.idField, d.kwargs);
      Ok((schema, d.(cached := Some(schema))))
  }

  /** Once generated, the class is the same for every later access,
      whichever serializer accesses it. */
  lemma AccessCached(d: Descriptor, s1: Serializer, s2: Serializer)
    requires Access(d, s1).Ok?
    ensures var (first, d1) := Access(d, s1).value;
            Access(d1, s2) == Ok((first, d1))
  {
  }

  /** The first access generates from the serializer it is made through. */
  lemma FirstAccess(apiType: string, idField: string, kwargs: Overrides, s: Serializer)
    ensures Access(AutoSchemaOf(apiType, idField, kwargs), s).Ok?
            <==> FromSerializer(s, apiType, idField, kwargs).Ok?
    ensures Access(AutoSchemaOf(apiType, idField, kwargs), s).Ok? ==>
              Access(AutoSchemaOf(apiType, idField, kwargs), s).value.0 == FromSerializer(s, apiType, idField, kwargs).value
  {
  }
}
