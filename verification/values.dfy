/** The dynamically typed values the engine works on: the key/value data a
    serializer hands to a schema, the JSON:API documents it produces and
    parses, and the schema objects themselves (a resource identifier may carry
    the schema and data needed to render its target in full). */
module Values {
  import opened Wrappers
  import opened Strings

  /** A Python value as the engine sees it. Objects are ordered
      (`OrderedDict`): the key order is part of the output. `Ident` is an
      in-memory resource identifier object; it never appears in parsed input. */
  datatype Value =
    | Null
    | Bool(b: bool)
    | Num(n: int)
    | Str(s: string)
    | Arr(items: seq<Value>)
    | Obj(fields: seq<(string, Value)>)
    | Ident(ident: ResourceId)

  /** A resource identifier object: `id`, `type`, optional `meta`, and, when
      the identifier overrides `get_schema` and `get_data`, the schema and
      data that render its target. */
  datatype ResourceId = ResourceId(id: Value, rtype: string, meta: Value, target: Option<Includable>)

  datatype Includable = Includable(schema: ResourceObject, data: seq<(string, Value)>)

  /** A constructed resource schema. Every declared attribute and relationship
      carries the wire name its transformer gave it at construction. */
  datatype ResourceObject = ResourceObject(
    idField: string,
    rtype: string,
    attributes: seq<Field>,
    relationships: seq<Relationship>,
    links: seq<(string, Value)>,
    meta: Value)

  datatype Field = Field(name: string, wire: string)

  datatype Relationship = Relationship(name: string, wire: string, spec: RelationshipObject)

  /** Relationship-level configuration: its own links and static meta. */
  datatype RelationshipObject = RelationshipObject(links: seq<(string, Value)>, meta: Value)

  /** An ordered dictionary with string keys. */
  type Dict = seq<(string, Value)>

  /** An HTTP request, reduced to its query parameters in arrival order. */
  datatype Request = Request(query: seq<(string, string)>)

  /** The exceptions the engine raises. */
  datatype Error =
    | TypeConflict(found: Value)
    | IncludeInvalid(message: string)
    | NoSchema
    | KeyError(key: string)
    | TypeError(detail: string)
    | AttributeError(name: string)
    | IndexError
    | ValueError(message: string)

  /** Python truthiness. */
  predicate Truthy(v: Value) {
    match v
    case Null => false
    case Bool(b) => b
    case Num(n) => n != 0
    case Str(s) => |s| > 0
    case Arr(items) => |items| > 0
    case Obj(fields) => |fields| > 0
    case Ident(_) => true
  }

  /** `d[k]`, or `None` when `k` is not a key. */
  function Find(d: Dict, k: string): (r: Option<Value>)
    ensures r.Some? <==> k in KeySet(d)
  {
    if |d| == 0 then None
    else if d[0].0 == k then Some(d[0].1)
    else Find(d[1..], k)
  }

  function KeySet(d: Dict): set<string>
  {
    if |d| == 0 then {} else {d[0].0} + KeySet(d[1..])
  }

  predicate Has(d: Dict, k: string) {
    k in KeySet(d)
  }

  function Get(d: Dict, k: string): Value
    requires Has(d, k)
  {
    Find(d, k).value
  }

  /** `d.get(k)`: `None` when absent. */
  function GetOrNull(d: Dict, k: string): Value {
    Find(d, k).GetOr(Null)
  }

  /** No key occurs twice. */
  predicate DistinctKeys(d: Dict) {
    forall i, j :: 0 <= i < j < |d| ==> d[i].0 != d[j].0
  }

  /** `d[k] = v`: an existing key keeps its position and takes the new value,
      a new key goes last. */
  function Put(d: Dict, k: string, v: Value): (r: Dict)
    ensures KeySet(r) == KeySet(d) + {k}
    ensures Find(r, k) == Some(v)
    ensures forall k' :: k' != k ==> Find(r, k') == Find(d, k')
    ensures DistinctKeys(d) ==> DistinctKeys(r)
    ensures k in KeySet(d) ==> |r| == |d|
    ensures k !in KeySet(d) ==> r == d + [(k, v)]
  {
    if |d| == 0 then [(k, v)]
    else if d[0].0 == k then
      assert KeySet(d) == {k} + KeySet(d[1..]);
      [(k, v)] + d[1..]
    else
      var rest := Put(d[1..], k, v);
      var r := [d[0]] + rest;
      assert r[1..] == rest;
      assert k !in KeySet(d) ==> r == d + [(k, v)] by {
        if k !in KeySet(d) {
          assert d == [d[0]] + d[1..];
        }
      }
      assert DistinctKeys(d) ==> DistinctKeys(r) by {
        if DistinctKeys(d) {
          DistinctTail(d);
          KeySetIndex(d[1..], d[0].0);
          ConsDistinct(d[0], rest);
        }
      }
      r
  }

  lemma DistinctTail(d: Dict)
    requires DistinctKeys(d) && |d| > 0
    ensures DistinctKeys(d[1..])
  {
    forall i, j | 0 <= i < j < |d[1..]| ensures d[1..][i].0 != d[1..][j].0 {
      assert d[1..][i] == d[i + 1] && d[1..][j] == d[j + 1];
    }
  }

  /** An entry whose key the rest lacks keeps the keys distinct. */
  lemma ConsDistinct(x: (string, Value), rest: Dict)
    requires DistinctKeys(rest) && x.0 !in KeySet(rest)
    ensures DistinctKeys([x] + rest)
  {
    var r := [x] + rest;
    forall j | 0 <= j < |rest| ensures rest[j].0 != x.0 {
      KeySetIndex(rest, rest[j].0);
    }
    forall i, j | 0 <= i < j < |r| ensures r[i].0 != r[j].0 {
      assert r[j] == rest[j - 1];
      if i > 0 {
        assert r[i] == rest[i - 1];
      }
    }
  }

  /** A key is in the key set exactly when some entry carries it. */
  lemma {:induction false} KeySetIndex(d: Dict, x: string)
    ensures x in KeySet(d) <==> exists i :: 0 <= i < |d| && d[i].0 == x
  {
    if |d| > 0 {
      KeySetIndex(d[1..], x);
      if x in KeySet(d[1..]) {
        var i :| 0 <= i < |d| - 1 && d[1..][i].0 == x;
        assert d[i + 1].0 == x;
      }
      forall i | 0 < i < |d| && d[i].0 == x ensures x in KeySet(d[1..]) {
        assert d[1..][i - 1].0 == x;
      }
    }
  }

  /** Looking a key up in a concatenation finds it in the first part when
      the first part has it. */
  lemma {:induction false} FindAppend(a: Dict, b: Dict, k: string)
    ensures Find(a + b, k) == if Has(a, k) then Find(a, k) else Find(b, k)
    decreases |a|
  {
    if |a| > 0 {
      assert (a + b)[1..] == a[1..] + b;
      FindAppend(a[1..], b, k);
    } else {
      assert a + b == b;
    }
  }

  /** After `d.update(e)`, a key of `e` maps to its value in `e`. */
  lemma {:induction false} UpdateFind(d: Dict, e: Dict, k: string)
    requires DistinctKeys(e)
    ensures Has(e, k) ==> Find(Update(d, e), k) == Find(e, k)
    decreases |e|
  {
    if |e| > 0 {
      assert DistinctKeys(e[1..]) by {
        forall i, j | 0 <= i < j < |e[1..]| ensures e[1..][i].0 != e[1..][j].0 {
          assert e[1..][i] == e[i + 1] && e[1..][j] == e[j + 1];
        }
      }
      UpdateFind(Put(d, e[0].0, e[0].1), e[1..], k);
      if k == e[0].0 {
        KeySetIndex(e[1..], k);
      }
    }
  }

  /** `d.update(e)`: every pair of `e`, in order, written into `d`. */
  function Update(d: Dict, e: Dict): (r: Dict)
    ensures KeySet(r) == KeySet(d) + KeySet(e)
    ensures forall k :: k !in KeySet(e) ==> Find(r, k) == Find(d, k)
    decreases |e|
  {
    if |e| == 0 then d else Update(Put(d, e[0].0, e[0].1), e[1..])
  }

  /** Python's `str(v)` for the values used as identifiers. */
  function PyStr(v: Value): string {
    match v
    case Str(s) => s
    case _ => Repr(v)
  }

  /** Python's `repr(v)`, without string escaping. */
  function Repr(v: Value): string
    decreases v, 1
  {
    match v
    case Null => "None"
    case Bool(b) => if b then "True" else "False"
    case Num(n) => IntToString(n)
    case Str(s) => "'" + s + "'"
    case Arr(items) => "[" + ReprItems(v, 0) + "]"
    case Obj(fields) => "{" + ReprFields(v, 0) + "}"
    case Ident(_) => "<ResourceIdObject>"
  }

  function ReprItems(v: Value, i: nat): string
    requires v.Arr? && i <= |v.items|
    decreases v, 0, |v.items| - i
  {
    if i == |v.items| then ""
    else (if i > 0 then ", " else "") + Repr(v.items[i]) + ReprItems(v, i + 1)
  }

  function ReprFields(v: Value, i: nat): string
    requires v.Obj? && i <= |v.fields|
    decreases v, 0, |v.fields| - i
  {
    if i == |v.fields| then ""
    else
      (if i > 0 then ", " else "") + "'" + v.fields[i].0 + "': " + Repr(v.fields[i].1)
      + ReprFields(v, i + 1)
  }
}
