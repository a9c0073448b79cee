/** Filter query parameters: every `filter[name]` parameter, its name
    passed through a transformer, mapped to its value. */
module Filters {
  import opened Wrappers
  import opened Strings
  import opened Values
  import opened Transforms
  import opened QueryKeys

  /** The name inside `filter[...]`, when `key` is a filter parameter. */
  function FilterName(key: string): Option<string> {
    MatchBracketed("filter[", key, IsWordChar)
  }

  /** The result key a filter name is stored under: its transform, with
      `NullTransform` standing in for a missing transformer. */
  function FilterKey(transformer: Option<Transformer>, name: string): string
    requires |name| > 0
  {
    Transform(transformer.GetOr(NullTransform), name).value
  }

  /** Where parameter `key` is stored: under its transformed name when it
      is a filter parameter, nowhere otherwise. */
  function Target(transformer: Option<Transformer>, key: string): Option<string> {
    match FilterName(key)
    case None => None
    case Some(name) => Some(FilterKey(transformer, name))
  }

  /** Parameter `key` is a filter parameter whose name is stored under `k`. */
  predicate Matches(key: string, transformer: Option<Transformer>, k: string) {
    Target(transformer, key) == Some(k)
  }

  /** The parameters in order, each written under its target when it has
      one; a later parameter overwrites an earlier one with the same
      target. */
  function PutTargets(params: Dict, target: string -> Option<string>): (r: Dict)
    ensures |r| <= |params|
    ensures DistinctKeys(r)
    decreases |params|
  {
    if |params| == 0 then []
    else
      var prev := PutTargets(params[..|params| - 1], target);
      var last := params[|params| - 1];
      match target(last.0)
      case None => prev
      case Some(k) => Put(prev, k, last.1)
  }

  /** `get_query_filters`: the filter parameters in order, each written
      under its transformed name; a later parameter whose name transforms
      to the same key overwrites an earlier one. Other parameters are
      ignored. */
  function GetQueryFilters(params: Dict, transformer: Option<Transformer>): (r: Dict)
    ensures |r| <= |params|
    ensures DistinctKeys(r)
  {
    PutTargets(params, key => Target(transformer, key))
  }

  lemma PutTargetsHasStep(params: Dict, target: string -> Option<string>, k: string)
    requires |params| > 0
    ensures Has(PutTargets(params, target), k)
            <==> Has(PutTargets(params[..|params| - 1], target), k) || target(params[|params| - 1].0) == Some(k)
  {
  }

  /** Every parameter's target is a key of the result. */
  lemma {:induction false} TargetHas(params: Dict, target: string -> Option<string>, k: string, i: nat)
    requires i < |params| && target(params[i].0) == Some(k)
    ensures Has(PutTargets(params, target), k)
    decreases |params|
  {
    PutTargetsHasStep(params, target, k);
    if i < |params| - 1 {
      assert params[..|params| - 1][i] == params[i];
      TargetHas(params[..|params| - 1], target, k, i);
    }
  }

  /** Every key of the result is some parameter's target. */
  lemma {:induction false} HasTarget(params: Dict, target: string -> Option<string>, k: string) returns (i: nat)
    requires Has(PutTargets(params, target), k)
    ensures i < |params| && target(params[i].0) == Some(k)
    decreases |params|
  {
    PutTargetsHasStep(params, target, k);
    if target(params[|params| - 1].0) == Some(k) {
      i := |params| - 1;
    } else {
      i := HasTarget(params[..|params| - 1], target, k);
      assert params[..|params| - 1][i] == params[i];
    }
  }

  /** A key is in the result exactly when some parameter targets it. */
  lemma PutTargetsKeys(params: Dict, target: string -> Option<string>, k: string)
    ensures Has(PutTargets(params, target), k) <==> exists i :: 0 <= i < |params| && target(params[i].0) == Some(k)
  {
    if Has(PutTargets(params, target), k) {
      var i := HasTarget(params, target, k);
    }
    if exists i :: 0 <= i < |params| && target(params[i].0) == Some(k) {
      var i :| 0 <= i < |params| && target(params[i].0) == Some(k);
      TargetHas(params, target, k, i);
    }
  }

  /** The value stored under a key is that of the last parameter
      targeting it. */
  lemma {:induction false} PutTargetsLastWins(params: Dict, target: string -> Option<string>, k: string, i: nat)
    requires i < |params| && target(params[i].0) == Some(k)
    requires forall j :: i < j < |params| ==> target(params[j].0) != Some(k)
    ensures Find(PutTargets(params, target), k) == Some(params[i].1)
    decreases |params|
  {
    var prefix := params[..|params| - 1];
    if i < |prefix| {
      assert forall j :: i < j < |prefix| ==> prefix[j] == params[j];
      PutTargetsLastWins(prefix, target, k, i);
    }
  }

  /** A key is in the filters exactly when some filter parameter's name is
      stored under it. */
  lemma GetQueryFiltersKeys(params: Dict, transformer: Option<Transformer>, k: string)
    ensures Has(GetQueryFilters(params, transformer), k)
            <==> exists i :: 0 <= i < |params| && Matches(params[i].0, transformer, k)
  {
    PutTargetsKeys(params, key => Target(transformer, key), k);
  }

  /** The value stored under a key is that of the last filter parameter
      whose name is stored under it. */
  lemma GetQueryFiltersLastWins(params: Dict, transformer: Option<Transformer>, k: string, i: nat)
    requires i < |params| && Matches(params[i].0, transformer, k)
    requires forall j :: i < j < |params| ==> !Matches(params[j].0, transformer, k)
    ensures Find(GetQueryFilters(params, transformer), k) == Some(params[i].1)
  {
    PutTargetsLastWins(params, key => Target(transformer, key), k, i);
  }

  /** The keys of the filter examples. */
  lemma ExampleNames()
    ensures FilterName("filter[name]") == Some("name")
    ensures FilterName("filter[lastName]") == Some("lastName")
    ensures FilterName("limit") == None
  {
    assert "filter[name]" == "filter[" + "name" + "]";
    assert "filter[lastName]" == "filter[" + "lastName" + "]";
    MatchBracketedKey("filter[", "name", IsWordChar);
    MatchBracketedKey("filter[", "lastName", IsWordChar);
  }

  lemma LastNameSnake()
    ensures Transform(CamelCaseToUnderscoreTransform, "name") == Some("name")
    ensures Transform(CamelCaseToUnderscoreTransform, "lastName") == Some("last_name")
  {
    UnderscoreNoUpperIdentity("name");
    assert Concat(UpperAll(["name"])) == "Name" by {
      assert UpperAll(["name"]) == [Upper("name")];
      assert Upper("name") == "Name";
    }
    assert "last" + "Name" == "lastName";
    assert Join(["last", "name"], '_') == "last_name";
    assert SnakeWords(["last", "name"]) by {
      assert SnakeWord("last") && SnakeWord("name");
    }
    UnderscoreOfCamel(["last", "name"]);
  }

  /** Appending a parameter to the query adds it under its target, if any. */
  lemma PutTargetsSnoc(params: Dict, p: (string, Value), target: string -> Option<string>)
    ensures PutTargets(params + [p], target)
         == match target(p.0) case None => PutTargets(params, target) case Some(k) => Put(PutTargets(params, target), k, p.1)
  {
    assert (params + [p])[..|params|] == params;
  }

  lemma PutEmpty(k: string, v: Value)
    ensures Put([], k, v) == [(k, v)]
  {
  }

  lemma PutSingle(k0: string, v0: Value, k: string, v: Value)
    ensures Put([(k0, v0)], k, v) == if k0 == k then [(k, v)] else [(k0, v0), (k, v)]
  {
    assert [(k0, v0)][1..] == [];
  }

  lemma PutTargetsOne(p0: (string, Value), target: string -> Option<string>)
    requires target(p0.0).Some?
    ensures PutTargets([p0], target) == [(target(p0.0).value, p0.1)]
  {
    PutTargetsSnoc([], p0, target);
    assert [] + [p0] == [p0];
    PutEmpty(target(p0.0).value, p0.1);
  }

  lemma PutTargetsTwo(p0: (string, Value), p1: (string, Value), target: string -> Option<string>)
    requires target(p0.0).Some? && target(p1.0).Some?
    ensures var k0, k1 := target(p0.0).value, target(p1.0).value;
            PutTargets([p0, p1], target) == if k0 == k1 then [(k0, p1.1)] else [(k0, p0.1), (k1, p1.1)]
  {
    PutTargetsOne(p0, target);
    PutTargetsSnoc([p0], p1, target);
    assert [p0] + [p1] == [p0, p1];
    PutSingle(target(p0.0).value, p0.1, target(p1.0).value, p1.1);
  }

  /** Three parameters of which the first two have targets and the third
      has none. */
  lemma PutTargetsThree(p0: (string, Value), p1: (string, Value), p2: (string, Value), target: string -> Option<string>)
    requires target(p0.0).Some? && target(p1.0).Some? && target(p2.0).None?
    ensures var k0, k1 := target(p0.0).value, target(p1.0).value;
            PutTargets([p0, p1, p2], target) == if k0 == k1 then [(k0, p1.1)] else [(k0, p0.1), (k1, p1.1)]
  {
    PutTargetsTwo(p0, p1, target);
    PutTargetsSnoc([p0, p1], p2, target);
    assert [p0, p1] + [p2] == [p0, p1, p2];
  }

  /** A three-parameter query whose first two parameters are filters and
      whose third is not gives the two filters in order, under their
      transformed names, the second overwriting the first when the names
      transform alike. */
  lemma TwoFilters(t: Option<Transformer>, a: string, b: string, c: string, x: Value, y: Value, z: Value)
    requires Target(t, a).Some? && Target(t, b).Some? && Target(t, c).None?
    ensures var ka, kb := Target(t, a).value, Target(t, b).value;
            GetQueryFilters([(a, x), (b, y), (c, z)], t)
            == if ka == kb then [(ka, y)] else [(ka, x), (kb, y)]
  {
    PutTargetsThree((a, x), (b, y), (c, z), key => Target(t, key));
  }

  /** The two filter examples: parameters that are not filters are
      dropped, names pass through unchanged without a transformer and are
      turned into snake case by `CamelCaseToUnderscoreTransform`. */
  lemma FilterExamples()
    ensures GetQueryFilters([("filter[name]", Str("John")), ("filter[lastName]", Str("Coltrane")), ("limit", Num(50))], None)
         == [("name", Str("John")), ("lastName", Str("Coltrane"))]
    ensures GetQueryFilters([("filter[name]", Str("John")), ("filter[lastName]", Str("Coltrane")), ("limit", Num(50))],
                            Some(CamelCaseToUnderscoreTransform))
         == [("name", Str("John")), ("last_name", Str("Coltrane"))]
  {
    ExampleNames();
    LastNameSnake();
    TwoFilters(None, "filter[name]", "filter[lastName]", "limit", Str("John"), Str("Coltrane"), Num(50));
    TwoFilters(Some(CamelCaseToUnderscoreTransform), "filter[name]", "filter[lastName]", "limit",
               Str("John"), Str("Coltrane"), Num(50));
  }
}
