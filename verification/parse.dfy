/** Parsing: a JSON:API resource object back into the internal field map
    the schema describes. */
module Parsing {
  import opened Wrappers
  import opened Values

  /** `s` occurs in `t` as a contiguous piece. */
  predicate IsSubstring(s: string, t: string)
    decreases |t|
  {
    (|s| <= |t| && t[..|s|] == s) || (|t| > 0 && IsSubstring(s, t[1..]))
  }

  /** Python's `key in container` for a string key. */
  function Contains(container: Value, key: string): Result<bool, Error> {
    match container
    case Obj(fields) => Ok(Has(fields, key))
    case Arr(items) => Ok(Str(key) in items)
    case Str(s) => Ok(IsSubstring(key, s))
    case _ => Err(TypeError("argument is not iterable"))
  }

  /** Python's `container[key]` for a string key. */
  function Subscript(container: Value, key: string): Result<Value, Error> {
    match container
    case Obj(fields) => if Has(fields, key) then Ok(Get(fields, key)) else Err(KeyError(key))
    case _ => Err(TypeError("indices must be integers"))
  }

  /** Every declared attribute whose wire name the `attributes` member
      holds, written under its internal name. */
  function ParseAttrs(attrs: seq<Field>, src: Value, acc: Dict): (r: Result<Dict, Error>)
    ensures r.Err? ==> !r.error.TypeConflict?
    ensures r.Ok? ==> KeySet(acc) <= KeySet(r.value)
    decreases |attrs|
  {
    if |attrs| == 0 then Ok(acc)
    else
      var a := attrs[0];
      var present :- Contains(src, a.wire);
      if present then
        var v :- Subscript(src, a.wire);
        ParseAttrs(attrs[1..], src, Put(acc, a.name, v))
      else ParseAttrs(attrs[1..], src, acc)
  }

  /** Every declared relationship whose wire name the `relationships`
      member holds, parsed and written under its internal name. */
  function ParseRels(rels: seq<Relationship>, src: Value, acc: Dict): (r: Result<Dict, Error>)
    ensures r.Err? ==> !r.error.TypeConflict?
    ensures r.Ok? ==> KeySet(acc) <= KeySet(r.value)
    decreases |rels|
  {
    if |rels| == 0 then Ok(acc)
    else
      var rel := rels[0];
      var present :- Contains(src, rel.wire);
      if present then
        var obj :- Subscript(src, rel.wire);
        var v :- RelParse(obj);
        ParseRels(rels[1..], src, Put(acc, rel.name, v))
      else ParseRels(rels[1..], src, acc)
  }

  /** The ids of a list of resource identifiers, in order; it fails
      exactly when some item has no `id` to subscript. */
  function ParseIds(items: seq<Value>): (r: Result<seq<Value>, Error>)
    ensures r.Ok? <==> forall i :: 0 <= i < |items| ==> Subscript(items[i], "id").Ok?
    ensures r.Ok? ==> |r.value| == |items|
    ensures r.Ok? ==> forall i :: 0 <= i < |items| ==> r.value[i] == Subscript(items[i], "id").value
    ensures r.Err? ==> !r.error.TypeConflict?
    decreases |items|
  {
    if |items| == 0 then Ok([])
    else
      var id :- Subscript(items[0], "id");
      var rest :- ParseIds(items[1..]);
      Ok([id] + rest)
  }

  /** `RelationshipObject.parse`: the id list when `data` is a list, the
      id when it is an object, `None` otherwise. */
  function RelParse(obj: Value): Result<Value, Error> {
    if !obj.Obj? then Err(AttributeError("get"))
    else
      var data := GetOrNull(obj.fields, "data");
      match data
      case Arr(items) =>
        var ids :- ParseIds(items);
        Ok(Arr(ids))
      case Obj(_) => Subscript(data, "id")
      case _ => Ok(Null)
  }

  /** `ResourceObject.parse`: the `type` member must equal the schema's
      type; a truthy `id` is copied under the id field; then the attributes
      and relationships the object holds. `TypeConflict` is raised exactly
      when `type` is missing or differs, and a truthy id always survives
      under the id field. */
  function Parse(s: ResourceObject, payload: Dict): (r: Result<Dict, Error>)
    ensures (r.Err? && r.error.TypeConflict?) <==> GetOrNull(payload, "type") != Str(s.rtype)
    ensures r.Ok? && Truthy(GetOrNull(payload, "id")) ==> Has(r.value, s.idField)
  {
    var rtype := GetOrNull(payload, "type");
    if rtype != Str(s.rtype) then Err(TypeConflict(rtype))
    else
      var id := GetOrNull(payload, "id");
      var withId := if Truthy(id) then [(s.idField, id)] else [];
      var attributes := GetOrNull(payload, "attributes");
      var withAttrs :- if Truthy(attributes) then ParseAttrs(s.attributes, attributes, withId) else Ok(withId);
      var relationships := GetOrNull(payload, "relationships");
      if Truthy(relationships) then ParseRels(s.relationships, relationships, withAttrs) else Ok(withAttrs)
  }

  // ---------------------------------------------------------------------
  // properties

  /** Reference definition: the value the last declared attribute named `k`
      whose wire name `src` holds maps to. */
  function LastAttrValue(attrs: seq<Field>, src: Dict, k: string): Option<Value>
    decreases |attrs|
  {
    if |attrs| == 0 then None
    else
      var a := attrs[|attrs| - 1];
      if a.name == k && Has(src, a.wire) then Some(Get(src, a.wire))
      else LastAttrValue(attrs[..|attrs| - 1], src, k)
  }

  /** From an attributes object, every declared attribute present under its
      wire name maps back to its internal name with the value copied; names
      of absent attributes keep what they had. Parsing never fails here. */
  lemma {:induction false} ParseAttrsObject(attrs: seq<Field>, src: Dict, acc: Dict)
    ensures ParseAttrs(attrs, Obj(src), acc).Ok?
    ensures forall k :: Find(ParseAttrs(attrs, Obj(src), acc).value, k)
                        == match LastAttrValue(attrs, src, k)
                           case Some(v) => Some(v)
                           case None => Find(acc, k)
    decreases |attrs|
  {
    if |attrs| > 0 {
      var a := attrs[0];
      var acc' := if Has(src, a.wire) then Put(acc, a.name, Get(src, a.wire)) else acc;
      ParseAttrsObject(attrs[1..], src, acc');
      forall k ensures LastAttrValue(attrs, src, k)
                       == match LastAttrValue(attrs[1..], src, k)
                          case Some(v) => Some(v)
                          case None => if a.name == k && Has(src, a.wire) then Some(Get(src, a.wire)) else None
      {
        LastAttrValueCons(attrs, src, k);
      }
    }
  }

  lemma {:induction false} LastAttrValueCons(attrs: seq<Field>, src: Dict, k: string)
    requires |attrs| > 0
    ensures LastAttrValue(attrs, src, k)
         == match LastAttrValue(attrs[1..], src, k)
            case Some(v) => Some(v)
            case None => if attrs[0].name == k && Has(src, attrs[0].wire) then Some(Get(src, attrs[0].wire)) else None
    decreases |attrs|
  {
    if |attrs| > 1 {
      var init := attrs[..|attrs| - 1];
      LastAttrValueCons(init, src, k);
      assert init[1..] == attrs[1..][..|attrs[1..]| - 1];
      assert init[0] == attrs[0];
    }
  }

  /** Reference definition: the parse of the relationship object held by
      the last declared relationship named `k` whose wire name `src` holds
      and whose object parses. */
  function LastRelValue(rels: seq<Relationship>, src: Dict, k: string): Option<Value>
    decreases |rels|
  {
    if |rels| == 0 then None
    else
      var r := rels[|rels| - 1];
      if r.name == k && Has(src, r.wire) && RelParse(Get(src, r.wire)).Ok? then
        Some(RelParse(Get(src, r.wire)).value)
      else LastRelValue(rels[..|rels| - 1], src, k)
  }

  /** Reference definition: the error of the first declared relationship,
      in declared order, whose object `src` holds and does not parse. */
  function FirstRelError(rels: seq<Relationship>, src: Dict): Option<Error>
    decreases |rels|
  {
    if |rels| == 0 then None
    else if Has(src, rels[0].wire) && RelParse(Get(src, rels[0].wire)).Err? then
      Some(RelParse(Get(src, rels[0].wire)).error)
    else FirstRelError(rels[1..], src)
  }

  /** From a relationships object, parsing fails with the error of the
      first present relationship object that does not parse; otherwise
      every declared relationship present under its wire name maps back to
      its internal name with its parsed value, and names of absent
      relationships keep what they had. */
  lemma {:induction false} ParseRelsObject(rels: seq<Relationship>, src: Dict, acc: Dict)
    ensures ParseRels(rels, Obj(src), acc).Err? <==> FirstRelError(rels, src).Some?
    ensures ParseRels(rels, Obj(src), acc).Err? ==> ParseRels(rels, Obj(src), acc).error == FirstRelError(rels, src).value
    ensures ParseRels(rels, Obj(src), acc).Ok? ==>
              forall k :: Find(ParseRels(rels, Obj(src), acc).value, k)
                          == match LastRelValue(rels, src, k)
                             case Some(v) => Some(v)
                             case None => Find(acc, k)
    decreases |rels|
  {
    if |rels| > 0 {
      var r := rels[0];
      if Has(src, r.wire) && RelParse(Get(src, r.wire)).Ok? {
        ParseRelsObject(rels[1..], src, Put(acc, r.name, RelParse(Get(src, r.wire)).value));
      } else if !Has(src, r.wire) {
        ParseRelsObject(rels[1..], src, acc);
      }
      if ParseRels(rels, Obj(src), acc).Ok? {
        forall k ensures LastRelValue(rels, src, k)
                         == match LastRelValue(rels[1..], src, k)
                            case Some(v) => Some(v)
                            case None =>
                              if r.name == k && Has(src, r.wire) && RelParse(Get(src, r.wire)).Ok? then
                                Some(RelParse(Get(src, r.wire)).value)
                              else None
        {
          LastRelValueCons(rels, src, k);
        }
      }
    }
  }

  lemma {:induction false} LastRelValueCons(rels: seq<Relationship>, src: Dict, k: string)
    requires |rels| > 0
    ensures LastRelValue(rels, src, k)
         == match LastRelValue(rels[1..], src, k)
            case Some(v) => Some(v)
            case None =>
              if rels[0].name == k && Has(src, rels[0].wire) && RelParse(Get(src, rels[0].wire)).Ok? then
                Some(RelParse(Get(src, rels[0].wire)).value)
              else None
    decreases |rels|
  {
    if |rels| > 1 {
      var init := rels[..|rels| - 1];
      LastRelValueCons(init, src, k);
      assert init[1..] == rels[1..][..|rels[1..]| - 1];
      assert init[0] == rels[0];
    }
  }

  /** The members of an object-valued member; nothing for any other
      value. */
  function Members(v: Value): Dict {
    if v.Obj? then v.fields else []
  }

  /** Reference definition of what `parse` returns under `k`: the last
      present relationship named `k`, else the last present attribute named
      `k`, else the id when `k` is the id field and the id is truthy. */
  function ParsedValue(s: ResourceObject, payload: Dict, k: string): Option<Value> {
    var id := GetOrNull(payload, "id");
    match LastRelValue(s.relationships, Members(GetOrNull(payload, "relationships")), k)
    case Some(v) => Some(v)
    case None =>
      match LastAttrValue(s.attributes, Members(GetOrNull(payload, "attributes")), k)
      case Some(v) => Some(v)
      case None => if k == s.idField && Truthy(id) then Some(id) else None
  }

  /** An empty source holds nothing and makes nothing fail. */
  lemma {:induction false} EmptySource(s: ResourceObject, k: string)
    ensures LastAttrValue(s.attributes, [], k) == None
    ensures LastRelValue(s.relationships, [], k) == None
    ensures FirstRelError(s.relationships, []) == None
  {
    LastAttrValueEmpty(s.attributes, k);
    LastRelValueEmpty(s.relationships, k);
    FirstRelErrorEmpty(s.relationships);
  }

  lemma {:induction false} LastAttrValueEmpty(attrs: seq<Field>, k: string)
    ensures LastAttrValue(attrs, [], k) == None
    decreases |attrs|
  {
    if |attrs| > 0 {
      LastAttrValueEmpty(attrs[..|attrs| - 1], k);
    }
  }

  lemma {:induction false} LastRelValueEmpty(rels: seq<Relationship>, k: string)
    ensures LastRelValue(rels, [], k) == None
    decreases |rels|
  {
    if |rels| > 0 {
      LastRelValueEmpty(rels[..|rels| - 1], k);
    }
  }

  lemma {:induction false} FirstRelErrorEmpty(rels: seq<Relationship>)
    ensures FirstRelError(rels, []) == None
    decreases |rels|
  {
    if |rels| > 0 {
      FirstRelErrorEmpty(rels[1..]);
    }
  }

  /** `ResourceObject.parse` on a well-typed payload whose `attributes` and
      `relationships` members are objects (or absent, or falsy): it fails
      exactly with the first relationship object that does not parse, and
      otherwise every key maps to its reference value: relationships
      overwrite attributes, attributes overwrite the id. */
  lemma ParseObject(s: ResourceObject, payload: Dict)
    requires GetOrNull(payload, "type") == Str(s.rtype)
    requires GetOrNull(payload, "attributes").Obj? || !Truthy(GetOrNull(payload, "attributes"))
    requires GetOrNull(payload, "relationships").Obj? || !Truthy(GetOrNull(payload, "relationships"))
    ensures Parse(s, payload).Err? <==> FirstRelError(s.relationships, Members(GetOrNull(payload, "relationships"))).Some?
    ensures Parse(s, payload).Err? ==>
              Parse(s, payload).error == FirstRelError(s.relationships, Members(GetOrNull(payload, "relationships"))).value
    ensures Parse(s, payload).Ok? ==> forall k :: Find(Parse(s, payload).value, k) == ParsedValue(s, payload, k)
  {
    var id := GetOrNull(payload, "id");
    var withId := if Truthy(id) then [(s.idField, id)] else [];
    var attributes := GetOrNull(payload, "attributes");
    var relationships := GetOrNull(payload, "relationships");
    forall k {
      EmptySource(s, k);
    }
    FirstRelErrorEmpty(s.relationships);
    assert forall k :: Find(withId, k) == if k == s.idField && Truthy(id) then Some(id) else None;
    if Truthy(attributes) {
      ParseAttrsObject(s.attributes, attributes.fields, withId);
    }
    assert ParseAttrs(s.attributes, attributes, withId).Ok? || !Truthy(attributes);
    var withAttrs := if Truthy(attributes) then ParseAttrs(s.attributes, attributes, withId).value else withId;
    assert forall k :: Find(withAttrs, k)
                       == match LastAttrValue(s.attributes, Members(attributes), k)
                          case Some(v) => Some(v)
                          case None => if k == s.idField && Truthy(id) then Some(id) else None;
    if Truthy(relationships) {
      ParseRelsObject(s.relationships, relationships.fields, withAttrs);
    }
  }

  /** `RelationshipObject.parse` on the three shapes of `data`: a list
      gives the list of its items' ids, an object its id, anything else
      (including a missing `data`) gives `None`. */
  lemma RelParseShapes(obj: Dict)
    ensures GetOrNull(obj, "data").Obj? ==> RelParse(Obj(obj)) == Subscript(GetOrNull(obj, "data"), "id")
    ensures (!GetOrNull(obj, "data").Obj? && !GetOrNull(obj, "data").Arr?) ==> RelParse(Obj(obj)) == Ok(Null)
    ensures GetOrNull(obj, "data").Arr? ==>
              (RelParse(Obj(obj)).Ok? <==> forall i :: 0 <= i < |GetOrNull(obj, "data").items| ==>
                                             Subscript(GetOrNull(obj, "data").items[i], "id").Ok?)
    ensures (GetOrNull(obj, "data").Arr? && RelParse(Obj(obj)).Ok?) ==>
              RelParse(Obj(obj)).value.Arr?
              && |RelParse(Obj(obj)).value.items| == |GetOrNull(obj, "data").items|
              && forall i :: 0 <= i < |GetOrNull(obj, "data").items| ==>
                   RelParse(Obj(obj)).value.items[i] == Get(GetOrNull(obj, "data").items[i].fields, "id")
  {
  }
}
