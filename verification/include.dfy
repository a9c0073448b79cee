/** The include tree: the parsed `include` query parameter, a nested
    dictionary whose keys are relationship names and whose leaves are empty
    dictionaries. Children keep dictionary insertion order. */
module Include {
  import opened Wrappers
  import opened Strings

  datatype IncludeTree = Node(children: seq<(string, IncludeTree)>)

  const Empty := Node([])


  /** The first entry carrying key `k`, from index `i` on. */
  function LookupFrom(cs: seq<(string, IncludeTree)>, k: string, i: nat): (r: Option<nat>)
    requires i <= |cs|
    ensures r.Some? ==> i <= r.value < |cs| && cs[r.value].0 == k
    ensures r.Some? ==> forall j :: i <= j < r.value ==> cs[j].0 != k
    ensures r.None? ==> forall j :: i <= j < |cs| ==> cs[j].0 != k
    decreases |cs| - i
  {
    if i == |cs| then None
    else if cs[i].0 == k then Some(i)
    else LookupFrom(cs, k, i + 1)
  }

  /** `k in tree`. */
  predicate HasKey(t: IncludeTree, k: string) {
    LookupFrom(t.children, k, 0).Some?
  }

  /** `tree.get(k, {})`. */
  function Child(t: IncludeTree, k: string): (r: IncludeTree)
    ensures !HasKey(t, k) ==> r == Empty
  {
    match LookupFrom(t.children, k, 0)
    case None => Empty
    case Some(i) => t.children[i].1
  }

  /** The number of levels of the tree; the empty tree has depth 0. */
  function Depth(t: IncludeTree): nat
    decreases t, 1
  {
    DepthFrom(t, 0)
  }

  function DepthFrom(t: IncludeTree, i: nat): nat
    requires i <= |t.children|
    decreases t, 0, |t.children| - i
  {
    if i == |t.children| then 0
    else
      var d := 1 + Depth(t.children[i].1);
      var rest := DepthFrom(t, i + 1);
      if d < rest then rest else d
  }

  lemma {:induction false} DepthFromBound(t: IncludeTree, i: nat, j: nat)
    requires i <= j < |t.children|
    ensures 1 + Depth(t.children[j].1) <= DepthFrom(t, i)
    decreases j - i
  {
    if i < j {
      DepthFromBound(t, i + 1, j);
    }
  }

  /** Descending into a present key strictly lowers the depth; descending
      into an absent one reaches the empty tree. This bounds the recursion
      of rendering by the depth of the include tree. */
  lemma ChildDepth(t: IncludeTree, k: string)
    ensures Depth(Child(t, k)) + (if HasKey(t, k) then 1 else 0) <= Depth(t)
  {
    match LookupFrom(t.children, k, 0)
    case None =>
    case Some(i) =>
      DepthFromBound(t, 0, i);
  }

  /** `tree[k] = v`: an existing key keeps its place, a new key goes last. */
  function SetChild(cs: seq<(string, IncludeTree)>, k: string, v: IncludeTree): (r: seq<(string, IncludeTree)>)
    decreases |cs|
  {
    if |cs| == 0 then [(k, v)]
    else if cs[0].0 == k then [(k, v)] + cs[1..]
    else [cs[0]] + SetChild(cs[1..], k, v)
  }

  lemma {:induction false} SetChildLookup(cs: seq<(string, IncludeTree)>, k: string, v: IncludeTree, k': string)
    ensures HasKey(Node(SetChild(cs, k, v)), k') <==> k' == k || HasKey(Node(cs), k')
    ensures Child(Node(SetChild(cs, k, v)), k') == if k' == k then v else Child(Node(cs), k')
    decreases |cs|
  {
    var r := SetChild(cs, k, v);
    if |cs| == 0 {
      assert r[0].0 == k;
    } else if cs[0].0 == k' || r[0].0 == k' {
      assert r[0].0 == k';
    } else {
      LookupShift(cs, k');
      LookupShift(r, k');
      if cs[0].0 == k {
        assert r[1..] == cs[1..];
      } else {
        SetChildLookup(cs[1..], k, v, k');
        assert r[1..] == SetChild(cs[1..], k, v);
      }
    }
  }

  /** Looking up past a first entry that does not match is looking up in the
      rest of the sequence. */
  lemma LookupShift(cs: seq<(string, IncludeTree)>, k: string)
    requires |cs| >= 1 && cs[0].0 != k
    ensures HasKey(Node(cs), k) <==> HasKey(Node(cs[1..]), k)
    ensures Child(Node(cs), k) == Child(Node(cs[1..]), k)
  {
    LookupFromShift(cs, k, 1);
  }

  lemma {:induction false} LookupFromShift(cs: seq<(string, IncludeTree)>, k: string, i: nat)
    requires 1 <= i <= |cs|
    ensures LookupFrom(cs, k, i) == (match LookupFrom(cs[1..], k, i - 1)
                                     case None => None
                                     case Some(j) => Some(j + 1))
    decreases |cs| - i
  {
    if i < |cs| {
      assert cs[1..][i - 1] == cs[i];
      LookupFromShift(cs, k, i + 1);
    }
  }

  // ---------------------------------------------------------------------
  // parse_include

  /** Walk one dotted path into the tree, creating each missing level. */
  function Insert(t: IncludeTree, comps: seq<string>): IncludeTree
    decreases |comps|
  {
    if |comps| == 0 then t
    else Node(SetChild(t.children, comps[0], Insert(Child(t, comps[0]), comps[1..])))
  }

  /** Add every comma-separated entry in order; empty entries are skipped. */
  function AddAll(t: IncludeTree, entries: seq<string>): IncludeTree
    decreases |entries|
  {
    if |entries| == 0 then t
    else AddAll(if entries[0] == "" then t else Insert(t, Split(entries[0], '.')), entries[1..])
  }

  /** `parse_include`: the tree never repeats a key at any level. */
  function ParseInclude(s: string): (r: IncludeTree)
    ensures WellFormed(r)
  {
    AddAllWellFormed(Empty, Split(s, ','));
    AddAll(Empty, Split(s, ','))
  }

  // ---------------------------------------------------------------------
  // the tree as a set of key paths

  /** `p` is a chain of nested keys of the tree. Two include trees are
      equal as dictionaries exactly when they have the same key paths. */
  predicate HasPath(t: IncludeTree, p: seq<string>)
    decreases |p|
  {
    |p| == 0 || (HasKey(t, p[0]) && HasPath(Child(t, p[0]), p[1..]))
  }

  ghost predicate SamePaths(a: IncludeTree, b: IncludeTree) {
    forall p :: HasPath(a, p) <==> HasPath(b, p)
  }

  predicate IsPrefix(p: seq<string>, q: seq<string>) {
    |p| <= |q| && q[..|p|] == p
  }

  /** No level of the tree repeats a key. */
  predicate WellFormed(t: IncludeTree)
    decreases t
  {
    (forall i, j :: 0 <= i < j < |t.children| ==> t.children[i].0 != t.children[j].0)
    && forall i :: 0 <= i < |t.children| ==> WellFormed(t.children[i].1)
  }

  /** Inserting a path adds exactly its prefixes to the tree's paths. */
  lemma {:induction false} InsertPaths(t: IncludeTree, comps: seq<string>, p: seq<string>)
    ensures HasPath(Insert(t, comps), p) <==> HasPath(t, p) || IsPrefix(p, comps)
    decreases |comps|
  {
    if |comps| > 0 && |p| > 0 {
      var c := comps[0];
      var sub := Insert(Child(t, c), comps[1..]);
      SetChildLookup(t.children, c, sub, p[0]);
      if p[0] == c {
        InsertPaths(Child(t, c), comps[1..], p[1..]);
        assert IsPrefix(p, comps) <==> IsPrefix(p[1..], comps[1..]) by {
          if IsPrefix(p[1..], comps[1..]) {
            assert comps[..|p|] == [c] + comps[1..][..|p| - 1];
            assert p == [p[0]] + p[1..];
          }
          if IsPrefix(p, comps) {
            assert comps[1..][..|p| - 1] == comps[..|p|][1..];
          }
        }
        assert HasKey(t, c) || !HasKey(t, c);
        if !HasKey(t, c) {
          EmptyPaths(p[1..]);
        }
      } else {
        assert !IsPrefix(p, comps) by {
          if |p| <= |comps| {
            assert comps[..|p|][0] == c;
          }
        }
      }
    }
  }

  /** The empty tree has only the empty path. */
  lemma EmptyPaths(p: seq<string>)
    ensures HasPath(Empty, p) <==> |p| == 0
  {
  }

  /** Some non-empty entry has `p` as a prefix of its dotted components. */
  ghost predicate Covered(entries: seq<string>, p: seq<string>) {
    exists i :: 0 <= i < |entries| && entries[i] != "" && IsPrefix(p, Split(entries[i], '.'))
  }

  lemma {:induction false} AddAllPaths(t: IncludeTree, entries: seq<string>, p: seq<string>)
    ensures HasPath(AddAll(t, entries), p) <==> HasPath(t, p) || Covered(entries, p)
    decreases |entries|
  {
    if |entries| > 0 {
      var e := entries[0];
      var t' := if e == "" then t else Insert(t, Split(e, '.'));
      AddAllPaths(t', entries[1..], p);
      if e != "" {
        InsertPaths(t, Split(e, '.'), p);
      }
      if Covered(entries, p) {
        var i :| 0 <= i < |entries| && entries[i] != "" && IsPrefix(p, Split(entries[i], '.'));
        if i > 0 {
          assert entries[1..][i - 1] == entries[i];
        }
      }
      if Covered(entries[1..], p) {
        var i :| 0 <= i < |entries[1..]| && entries[1..][i] != "" && IsPrefix(p, Split(entries[1..][i], '.'));
        assert entries[i + 1] == entries[1..][i];
      }
    }
  }

  /** The paths of `parse_include(s)`: the empty path, and every prefix of
      the dotted components of a non-empty comma-separated entry — nothing
      else. */
  lemma ParseIncludePaths(s: string, p: seq<string>)
    ensures HasPath(ParseInclude(s), p) <==> |p| == 0 || Covered(Split(s, ','), p)
  {
    AddAllPaths(Empty, Split(s, ','), p);
    EmptyPaths(p);
  }

  /** The non-empty comma-separated entries of an include string. */
  function Entries(s: string): set<string> {
    set e | e in Split(s, ',') && e != ""
  }

  /** The tree depends only on the set of entries: reordering or repeating
      them gives an equal dictionary. */
  lemma ParseIncludeSetDetermined(s1: string, s2: string)
    requires Entries(s1) == Entries(s2)
    ensures SamePaths(ParseInclude(s1), ParseInclude(s2))
  {
    forall p ensures HasPath(ParseInclude(s1), p) <==> HasPath(ParseInclude(s2), p) {
      ParseIncludePaths(s1, p);
      ParseIncludePaths(s2, p);
      CoveredByEntries(s1, p);
      CoveredByEntries(s2, p);
    }
  }

  lemma CoveredByEntries(s: string, p: seq<string>)
    ensures Covered(Split(s, ','), p) <==> exists e :: e in Entries(s) && IsPrefix(p, Split(e, '.'))
  {
    var es := Split(s, ',');
    if Covered(es, p) {
      var i :| 0 <= i < |es| && es[i] != "" && IsPrefix(p, Split(es[i], '.'));
      assert es[i] in Entries(s);
    }
    if exists e :: e in Entries(s) && IsPrefix(p, Split(e, '.')) {
      var e :| e in Entries(s) && IsPrefix(p, Split(e, '.'));
      var i :| 0 <= i < |es| && es[i] == e;
    }
  }

  // ---------------------------------------------------------------------
  // well-formedness

  /** Setting a key replaces its first entry in place, or appends a new
      entry when the key is absent. */
  lemma {:induction false} SetChildShape(cs: seq<(string, IncludeTree)>, k: string, v: IncludeTree)
    ensures match LookupFrom(cs, k, 0)
            case Some(i) => SetChild(cs, k, v) == cs[i := (k, v)]
            case None => SetChild(cs, k, v) == cs + [(k, v)]
    decreases |cs|
  {
    if |cs| > 0 && cs[0].0 != k {
      SetChildShape(cs[1..], k, v);
      LookupFromShift(cs, k, 1);
      match LookupFrom(cs[1..], k, 0)
      case Some(i) =>
        assert [cs[0]] + cs[1..][i := (k, v)] == cs[i + 1 := (k, v)];
      case None =>
        assert [cs[0]] + (cs[1..] + [(k, v)]) == cs + [(k, v)];
    }
  }

  lemma SetChildWellFormed(cs: seq<(string, IncludeTree)>, k: string, v: IncludeTree)
    requires WellFormed(Node(cs)) && WellFormed(v)
    ensures WellFormed(Node(SetChild(cs, k, v)))
  {
    SetChildShape(cs, k, v);
    match LookupFrom(cs, k, 0)
    case Some(i) => ReplaceWellFormed(cs, i, v);
    case None => AppendWellFormed(cs, k, v);
  }

  /** Replacing an entry's subtree keeps the keys. */
  lemma ReplaceWellFormed(cs: seq<(string, IncludeTree)>, i: nat, v: IncludeTree)
    requires WellFormed(Node(cs)) && WellFormed(v) && i < |cs|
    ensures WellFormed(Node(cs[i := (cs[i].0, v)]))
  {
    var r := cs[i := (cs[i].0, v)];
    forall a, b | 0 <= a < b < |r| ensures r[a].0 != r[b].0 {
      assert r[a].0 == cs[a].0 && r[b].0 == cs[b].0;
    }
    forall a | 0 <= a < |r| ensures WellFormed(r[a].1) {
      if a != i {
        assert r[a] == cs[a];
      }
    }
  }

  /** Appending an entry under a new key keeps the keys distinct. */
  lemma AppendWellFormed(cs: seq<(string, IncludeTree)>, k: string, v: IncludeTree)
    requires WellFormed(Node(cs)) && WellFormed(v)
    requires forall j :: 0 <= j < |cs| ==> cs[j].0 != k
    ensures WellFormed(Node(cs + [(k, v)]))
  {
    var r := cs + [(k, v)];
    forall a, b | 0 <= a < b < |r| ensures r[a].0 != r[b].0 {
      if b < |cs| {
        assert r[a] == cs[a] && r[b] == cs[b];
      } else {
        assert r[a] == cs[a] && r[b].0 == k;
      }
    }
    forall a | 0 <= a < |r| ensures WellFormed(r[a].1) {
      if a < |cs| {
        assert r[a] == cs[a];
      }
    }
  }

  lemma ChildWellFormed(t: IncludeTree, k: string)
    requires WellFormed(t)
    ensures WellFormed(Child(t, k))
  {
  }

  lemma {:induction false} InsertWellFormed(t: IncludeTree, comps: seq<string>)
    requires WellFormed(t)
    ensures WellFormed(Insert(t, comps))
    decreases |comps|
  {
    if |comps| > 0 {
      ChildWellFormed(t, comps[0]);
      InsertWellFormed(Child(t, comps[0]), comps[1..]);
      SetChildWellFormed(t.children, comps[0], Insert(Child(t, comps[0]), comps[1..]));
    }
  }

  lemma {:induction false} AddAllWellFormed(t: IncludeTree, entries: seq<string>)
    requires WellFormed(t)
    ensures WellFormed(AddAll(t, entries))
    decreases |entries|
  {
    if |entries| > 0 {
      if entries[0] != "" {
        InsertWellFormed(t, Split(entries[0], '.'));
      }
      AddAllWellFormed(if entries[0] == "" then t else Insert(t, Split(entries[0], '.')), entries[1..]);
    }
  }

  // ---------------------------------------------------------------------
  // examples

  lemma ParseIncludeEmpty()
    ensures ParseInclude("") == Empty
  {
    assert Split("", ',') == [""];
  }

  lemma ParseIncludeSingle()
    ensures ParseInclude("a") == Node([("a", Empty)])
  {
    SplitNoSep("a", ',');
    SplitNoSep("a", '.');
    assert Insert(Empty, ["a"]) == Node([("a", Empty)]);
  }

  /** An empty dotted segment is kept as a key. */
  lemma ParseIncludeTrailingDot()
    ensures ParseInclude("a.") == Node([("a", Node([("", Empty)]))])
  {
    SplitNoSep("a.", ',');
    assert Split("a.", '.') == ["a", ""];
    assert Insert(Empty, [""]) == Node([("", Empty)]);
    assert ["a", ""][1..] == [""];
    assert Insert(Empty, ["a", ""]) == Node([("a", Node([("", Empty)]))]);
  }

  /** Shared prefixes merge into one subtree. */
  lemma ParseIncludeMerges()
    ensures ParseInclude("a,a.b,a.c.d,e.f,g")
         == Node([("a", Node([("b", Empty), ("c", Node([("d", Empty)]))])),
                  ("e", Node([("f", Empty)])),
                  ("g", Empty)])
  {
    var es := ["a", "a.b", "a.c.d", "e.f", "g"];
    SplitDocEntries();
    SplitDotted();
    MergeSteps();
    assert es[1..] == ["a.b", "a.c.d", "e.f", "g"];
    assert es[1..][1..] == ["a.c.d", "e.f", "g"];
    assert es[1..][1..][1..] == ["e.f", "g"];
    assert es[1..][1..][1..][1..] == ["g"];
    assert ["g"][1..] == [];
  }

  lemma MergeSteps()
    ensures Insert(Empty, ["a"]) == Node([("a", Empty)])
    ensures Insert(Node([("a", Empty)]), ["a", "b"]) == Node([("a", Node([("b", Empty)]))])
    ensures Insert(Node([("a", Node([("b", Empty)]))]), ["a", "c", "d"])
         == Node([("a", Node([("b", Empty), ("c", Node([("d", Empty)]))]))])
    ensures Insert(Node([("a", Node([("b", Empty), ("c", Node([("d", Empty)]))]))]), ["e", "f"])
         == Node([("a", Node([("b", Empty), ("c", Node([("d", Empty)]))])), ("e", Node([("f", Empty)]))])
    ensures Insert(Node([("a", Node([("b", Empty), ("c", Node([("d", Empty)]))])), ("e", Node([("f", Empty)]))]), ["g"])
         == Node([("a", Node([("b", Empty), ("c", Node([("d", Empty)]))])), ("e", Node([("f", Empty)])), ("g", Empty)])
  {
    MergeStepB();
    MergeStepCD();
    MergeStepEF();
    MergeStepG();
  }

  lemma MergeStepB()
    ensures Insert(Node([("a", Empty)]), ["a", "b"]) == Node([("a", Node([("b", Empty)]))])
  {
    assert ["a", "b"][1..] == ["b"];
    assert Child(Node([("a", Empty)]), "a") == Empty;
    assert Insert(Empty, ["b"]) == Node([("b", Empty)]);
  }

  lemma MergeStepCD()
    ensures Insert(Node([("a", Node([("b", Empty)]))]), ["a", "c", "d"])
         == Node([("a", Node([("b", Empty), ("c", Node([("d", Empty)]))]))])
  {
    var b := Node([("b", Empty)]);
    assert ["a", "c", "d"][1..] == ["c", "d"];
    assert ["c", "d"][1..] == ["d"];
    assert Child(Node([("a", b)]), "a") == b;
    assert Child(b, "c") == Empty by {
      assert LookupFrom(b.children, "c", 1) == None;
    }
    assert Insert(Empty, ["d"]) == Node([("d", Empty)]);
    assert SetChild(b.children, "c", Node([("d", Empty)])) == [("b", Empty), ("c", Node([("d", Empty)]))];
  }

  lemma MergeStepEF()
    ensures Insert(Node([("a", Node([("b", Empty), ("c", Node([("d", Empty)]))]))]), ["e", "f"])
         == Node([("a", Node([("b", Empty), ("c", Node([("d", Empty)]))])), ("e", Node([("f", Empty)]))])
  {
    var t := Node([("a", Node([("b", Empty), ("c", Node([("d", Empty)]))]))]);
    assert ["e", "f"][1..] == ["f"];
    assert LookupFrom(t.children, "e", 0) == None by {
      assert LookupFrom(t.children, "e", 1) == None;
    }
    assert Insert(Empty, ["f"]) == Node([("f", Empty)]);
    SetChildShape(t.children, "e", Node([("f", Empty)]));
  }

  lemma MergeStepG()
    ensures Insert(Node([("a", Node([("b", Empty), ("c", Node([("d", Empty)]))])), ("e", Node([("f", Empty)]))]), ["g"])
         == Node([("a", Node([("b", Empty), ("c", Node([("d", Empty)]))])), ("e", Node([("f", Empty)])), ("g", Empty)])
  {
    var t := Node([("a", Node([("b", Empty), ("c", Node([("d", Empty)]))])), ("e", Node([("f", Empty)]))]);
    assert LookupFrom(t.children, "g", 0) == None by {
      assert LookupFrom(t.children, "g", 2) == None;
      assert LookupFrom(t.children, "g", 1) == None;
    }
    assert ["g"][1..] == [];
    SetChildShape(t.children, "g", Empty);
  }

  lemma JoinDocEntries()
    ensures Join(["a", "a.b", "a.c.d", "e.f", "g"], ',') == "a,a.b,a.c.d,e.f,g"
  {
    JoinTailCons("g", [], ',');
    JoinTailCons("e.f", ["g"], ',');
    JoinTailCons("a.c.d", ["e.f", "g"], ',');
    JoinTailCons("a.b", ["a.c.d", "e.f", "g"], ',');
    assert ["a", "a.b", "a.c.d", "e.f", "g"][1..] == ["a.b"] + ["a.c.d", "e.f", "g"];
  }

  lemma NoCommaDocEntries()
    ensures forall i :: 0 <= i < 5 ==> ',' !in ["a", "a.b", "a.c.d", "e.f", "g"][i]
  {
    var es := ["a", "a.b", "a.c.d", "e.f", "g"];
    forall i | 0 <= i < |es| ensures ',' !in es[i] {
      var e := es[i];
      assert forall j :: 0 <= j < |e| ==> e[j] != ',';
    }
  }

  lemma SplitDocEntries()
    ensures Split("a,a.b,a.c.d,e.f,g", ',') == ["a", "a.b", "a.c.d", "e.f", "g"]
  {
    JoinDocEntries();
    NoCommaDocEntries();
    SplitJoin(["a", "a.b", "a.c.d", "e.f", "g"], ',');
  }

  lemma SplitDotted()
    ensures Split("a", '.') == ["a"]
    ensures Split("a.b", '.') == ["a", "b"]
    ensures Split("a.c.d", '.') == ["a", "c", "d"]
    ensures Split("e.f", '.') == ["e", "f"]
    ensures Split("g", '.') == ["g"]
  {
    SplitNoSep("a", '.');
    SplitNoSep("g", '.');
    SplitPairs();
    SplitTriple();
  }

  lemma SplitPairs()
    ensures Split("a.b", '.') == ["a", "b"]
    ensures Split("e.f", '.') == ["e", "f"]
  {
    SplitPair("a", "b");
    assert "a" + "." + "b" == "a.b";
    SplitPair("e", "f");
    assert "e" + "." + "f" == "e.f";
  }

  lemma SplitTriple()
    ensures Split("a.c.d", '.') == ["a", "c", "d"]
  {
    assert Join(["a", "c", "d"], '.') == "a.c.d" by {
      JoinTailCons("d", [], '.');
      JoinTailCons("c", ["d"], '.');
      assert ["a", "c", "d"][1..] == ["c"] + ["d"];
    }
    SplitJoin(["a", "c", "d"], '.');
  }

  lemma SplitPair(x: string, y: string)
    requires |x| == 1 && |y| == 1 && x[0] != '.' && y[0] != '.'
    ensures Split(x + "." + y, '.') == [x, y]
  {
    assert Join([x, y], '.') == x + "." + y by {
      JoinTailCons(y, [], '.');
      assert [x, y][1..] == [y] + [];
    }
    SplitJoin([x, y], '.');
  }
}
