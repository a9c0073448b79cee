/** Name transformers: the functions that turn a declared (internal) field
    name into the name used on the wire, and back. */
module Transforms {
  import opened Wrappers
  import opened Strings

  /** The transformer classes the library ships. */
  datatype Transformer =
    | NullTransform
    | CamelCaseTransform
    | CamelCaseToUnderscoreTransform

  /** `transformer.transform(name)`; `None` when the call raises, which only
      `CamelCaseToUnderscoreTransform` does, and only on the empty name. */
  function Transform(t: Transformer, name: string): (r: Option<string>)
    ensures r.None? <==> t.CamelCaseToUnderscoreTransform? && name == ""
  {
    match t
    case NullTransform => Some(name)
    case CamelCaseTransform => Some(CamelCase(name))
    case CamelCaseToUnderscoreTransform => CamelCaseToUnderscore(name)
  }

  /** `NullTransform` is the identity. */
  lemma NullTransformIsIdentity(name: string)
    ensures Transform(NullTransform, name) == Some(name)
  {
  }

  /** Every transformer accepts a non-empty name. */
  lemma TransformNonEmpty(t: Transformer, name: string)
    requires |name| > 0
    ensures Transform(t, name).Some?
  {
  }

  // ---------------------------------------------------------------------
  // snake_case to camelCase

  /** `_upper`: the first character upper-cased, the rest unchanged. */
  function Upper(name: string): string
  {
    if |name| > 0 then [ToUpper(name[0])] + name[1..] else name
  }

  function UpperAll(parts: seq<string>): (r: seq<string>)
    ensures |r| == |parts|
    ensures forall i :: 0 <= i < |parts| ==> r[i] == Upper(parts[i])
  {
    if |parts| == 0 then [] else [Upper(parts[0])] + UpperAll(parts[1..])
  }

  /** `CamelCaseTransform`: split on `_`, keep the first piece, capitalise the
      first character of every later piece, and concatenate. Total; the
      result never contains `_`. */
  function CamelCase(name: string): (r: string)
    ensures '_' !in r
  {
    var parts := Split(name, '_');
    var ups := UpperAll(parts[1..]);
    forall i | 0 <= i < |ups| ensures '_' !in ups[i] {
      assert '_' !in parts[1..][i];
    }
    ConcatNoChar(ups, '_');
    parts[0] + Concat(ups)
  }

  lemma {:induction false} ConcatNoChar(parts: seq<string>, c: char)
    requires forall i :: 0 <= i < |parts| ==> c !in parts[i]
    ensures c !in Concat(parts)
  {
    if |parts| > 0 {
      ConcatNoChar(parts[1..], c);
    }
  }

  lemma CamelCaseOfJoin(ws: seq<string>)
    requires |ws| >= 1
    requires forall i :: 0 <= i < |ws| ==> '_' !in ws[i]
    ensures CamelCase(Join(ws, '_')) == ws[0] + Concat(UpperAll(ws[1..]))
  {
    SplitJoin(ws, '_');
  }

  lemma CamelCaseSingleWord()
    ensures CamelCase("one") == "one"
  {
    CamelCaseOfJoin(["one"]);
    assert Join(["one"], '_') == "one";
  }

  /** Three `_`-separated words: the first kept, the others capitalised. */
  lemma CamelCaseThree(a: string, b: string, c: string)
    requires '_' !in a && '_' !in b && '_' !in c
    ensures CamelCase(a + "_" + b + "_" + c) == a + Upper(b) + Upper(c)
  {
    var ws := [a, b, c];
    assert ws[1..] == [b, c] && ws[1..][1..] == [c] && ws[1..][1..][1..] == [];
    assert JoinTail([c], '_') == "_" + c;
    assert JoinTail([b, c], '_') == "_" + b + "_" + c;
    assert Join(ws, '_') == a + "_" + b + "_" + c;
    CamelCaseOfJoin(ws);
    assert UpperAll([b, c]) == [Upper(b), Upper(c)];
    assert Concat([Upper(b), Upper(c)]) == Upper(b) + Upper(c) by {
      assert [Upper(b), Upper(c)][1..] == [Upper(c)] && [Upper(c)][1..] == [];
      assert Concat([Upper(c)]) == Upper(c) + "";
      assert Upper(c) + "" == Upper(c);
    }
  }

  lemma JoinOneTwoThree()
    ensures Join(["one", "two", "three"], '_') == "one_two_three"
  {
    var ws := ["one", "two", "three"];
    assert ws[1..] == ["two", "three"];
    assert JoinTail(["three"], '_') == "_three" by {
      assert ["three"][1..] == [];
    }
    assert JoinTail(["two", "three"], '_') == "_two" + "_three" by {
      assert ["two", "three"][1..] == ["three"];
    }
  }

  lemma ConcatTwoThree()
    ensures Concat(UpperAll(["two", "three"])) == "TwoThree"
  {
    assert ToUpper('t') == 'T';
    assert Upper("two") == "Two" by { assert "two"[1..] == "wo"; }
    assert Upper("three") == "Three" by { assert "three"[1..] == "hree"; }
    assert UpperAll(["two", "three"]) == ["Two", "Three"];
    assert Concat(["Two", "Three"]) == "TwoThree" by {
      assert ["Two", "Three"][1..] == ["Three"];
    }
  }

  // ---------------------------------------------------------------------
  // camelCase to snake_case

  /** `name[last].lower() + name[last + 1:i]`. */
  function Word(name: string, last: nat, i: nat): string
    requires last < |name| && i <= |name|
  {
    [ToLower(name[last])] + (if last + 1 <= i then name[last + 1..i] else "")
  }

  /** The scan of `CamelCaseToUnderscoreTransform.transform` from index `i`,
      with the current word starting at `last` and `words` already closed. */
  function ScanWords(name: string, i: nat, last: nat, words: seq<string>): seq<string>
    requires last < |name| && last <= i <= |name|
    decreases |name| - i
  {
    if i == |name| then words + [Word(name, last, |name|)]
    else if IsUpper(name[i]) then ScanWords(name, i + 1, i, words + [Word(name, last, i)])
    else ScanWords(name, i + 1, last, words)
  }

  /** `CamelCaseToUnderscoreTransform`: a new lower-cased word at every
      upper-case character, words joined by `_`. `None` on the empty name,
      where the source's `name[last]` raises `IndexError`. */
  function CamelCaseToUnderscore(name: string): (r: Option<string>)
    ensures r.None? <==> name == ""
  {
    if |name| == 0 then None else Some(Join(ScanWords(name, 0, 0, []), '_'))
  }

  /** Every upper-case character replaced by `_` and its lower-case form. */
  function Spread(s: string): string
  {
    if |s| == 0 then ""
    else (if IsUpper(s[0]) then ['_', ToLower(s[0])] else [s[0]]) + Spread(s[1..])
  }

  lemma {:induction false} SpreadNoUpper(s: string)
    requires forall i :: 0 <= i < |s| ==> !IsUpper(s[i])
    ensures Spread(s) == s
  {
    if |s| > 0 {
      SpreadNoUpper(s[1..]);
    }
  }

  lemma {:induction false} SpreadConcat(a: string, b: string)
    ensures Spread(a + b) == Spread(a) + Spread(b)
  {
    if |a| > 0 {
      assert (a + b)[1..] == a[1..] + b;
      SpreadConcat(a[1..], b);
    } else {
      assert a + b == b;
    }
  }

  lemma JoinExtendLast(words: seq<string>, w: string, c: char, sep: char)
    ensures Join(words + [w + [c]], sep) == Join(words + [w], sep) + [c]
  {
    if |words| == 0 {
      assert words + [w + [c]] == [w + [c]];
      assert words + [w] == [w];
    } else {
      JoinAppend(words, w + [c], sep);
      JoinAppend(words, w, sep);
    }
  }

  lemma SpreadStep(s: string, i: nat)
    requires i < |s|
    ensures Spread(s[i..]) == (if IsUpper(s[i]) then ['_', ToLower(s[i])] else [s[i]]) + Spread(s[i + 1..])
  {
    assert s[i..][0] == s[i] && s[i..][1..] == s[i + 1..];
  }

  lemma AssocPair(j: string, a: char, b: char, rest: string)
    ensures j + [a] + [b] + rest == j + ([a, b] + rest)
  {
  }

  lemma AssocOne(j: string, c: char, rest: string)
    ensures j + [c] + rest == j + ([c] + rest)
  {
  }

  /** An upper-case character closes the current word and starts a new one. */
  lemma ScanUpperStep(name: string, i: nat, last: nat, words: seq<string>)
    requires last < i < |name| && IsUpper(name[i])
    ensures Join(words + [Word(name, last, i)] + [Word(name, i, i + 1)], '_') + Spread(name[i + 1..])
         == Join(words + [Word(name, last, i)], '_') + Spread(name[i..])
  {
    var ws := words + [Word(name, last, i)];
    var l := ToLower(name[i]);
    SpreadStep(name, i);
    assert Word(name, i, i + 1) == [l];
    JoinAppend(ws, [l], '_');
    AssocPair(Join(ws, '_'), '_', l, Spread(name[i + 1..]));
  }

  /** Any other character extends the current word. */
  lemma ScanOtherStep(name: string, i: nat, last: nat, words: seq<string>)
    requires last < i < |name| && !IsUpper(name[i])
    ensures Join(words + [Word(name, last, i + 1)], '_') + Spread(name[i + 1..])
         == Join(words + [Word(name, last, i)], '_') + Spread(name[i..])
  {
    SpreadStep(name, i);
    assert Word(name, last, i + 1) == Word(name, last, i) + [name[i]];
    JoinExtendLast(words, Word(name, last, i), name[i], '_');
    AssocOne(Join(words + [Word(name, last, i)], '_'), name[i], Spread(name[i + 1..]));
  }

  /** The loop invariant of the scan: the words it will produce join to the
      words so far, the open word, and the spread of what is left. */
  lemma {:induction false} ScanWordsSpread(name: string, i: nat, last: nat, words: seq<string>)
    requires last < i <= |name|
    ensures Join(ScanWords(name, i, last, words), '_')
         == Join(words + [Word(name, last, i)], '_') + Spread(name[i..])
    decreases |name| - i
  {
    if i == |name| {
      assert name[i..] == "";
    } else if IsUpper(name[i]) {
      ScanWordsSpread(name, i + 1, i, words + [Word(name, last, i)]);
      ScanUpperStep(name, i, last, words);
    } else {
      ScanWordsSpread(name, i + 1, last, words);
      ScanOtherStep(name, i, last, words);
    }
  }

  lemma ScanFromUpper(name: string)
    requires |name| > 0 && IsUpper(name[0])
    ensures Join(ScanWords(name, 0, 0, []), '_') == [ToLower(name[0]), '_'] + [ToLower(name[0])] + Spread(name[1..])
  {
    var l := ToLower(name[0]);
    var w := Word(name, 0, 0);
    assert w == [l] && Word(name, 0, 1) == [l];
    assert ScanWords(name, 0, 0, []) == ScanWords(name, 1, 0, [w]) by {
      assert [] + [w] == [w];
    }
    ScanWordsSpread(name, 1, 0, [w]);
    JoinAppend([w], [l], '_');
    assert Join([w], '_') == w;
    AssocPair([l], '_', l, Spread(name[1..]));
    assert [l] + ['_'] == [l, '_'];
  }

  lemma ScanFromOther(name: string)
    requires |name| > 0 && !IsUpper(name[0])
    ensures Join(ScanWords(name, 0, 0, []), '_') == [ToLower(name[0])] + Spread(name[1..])
  {
    var w := Word(name, 0, 1);
    assert w == [ToLower(name[0])];
    assert ScanWords(name, 0, 0, []) == ScanWords(name, 1, 0, []);
    ScanWordsSpread(name, 1, 0, []);
    assert [] + [w] == [w];
    assert Join([w], '_') == w;
  }

  /** Character-wise form: a leading upper-case letter yields a spurious
      one-letter first word; after that every upper-case letter becomes `_`
      and its lower-case form. */
  lemma UnderscorePerChar(name: string)
    requires |name| > 0
    ensures CamelCaseToUnderscore(name)
         == Some((if IsUpper(name[0]) then [ToLower(name[0]), '_'] else [])
                 + [ToLower(name[0])] + Spread(name[1..]))
  {
    if IsUpper(name[0]) {
      ScanFromUpper(name);
    } else {
      ScanFromOther(name);
      assert [] + [ToLower(name[0])] == [ToLower(name[0])];
    }
  }

  /** A name without upper-case letters comes back unchanged. */
  lemma UnderscoreNoUpperIdentity(name: string)
    requires |name| > 0
    requires forall i :: 0 <= i < |name| ==> !IsUpper(name[i])
    ensures CamelCaseToUnderscore(name) == Some(name)
  {
    UnderscorePerChar(name);
    assert !IsUpper(name[0]);
    assert forall i :: 0 <= i < |name[1..]| ==> !IsUpper(name[1..][i]) by {
      forall i | 0 <= i < |name[1..]| ensures !IsUpper(name[1..][i]) {
        assert name[1..][i] == name[i + 1];
      }
    }
    SpreadNoUpper(name[1..]);
    assert ToLower(name[0]) == name[0];
    assert ([] + [name[0]]) + name[1..] == name;
  }

  lemma UnderscoreSingleWord()
    ensures CamelCaseToUnderscore("one") == Some("one")
  {
    UnderscoreNoUpperIdentity("one");
  }

  lemma UnderscoreThreeWords()
    ensures CamelCaseToUnderscore("oneTwoThree") == Some("one_two_three")
  {
    var ws := ["one", "two", "three"];
    assert SnakeWords(ws) by {
      assert SnakeWord("one") && SnakeWord("two") && SnakeWord("three");
    }
    UnderscoreOfCamel(ws);
    assert ws[1..] == ["two", "three"];
    ConcatTwoThree();
    assert "one" + "TwoThree" == "oneTwoThree";
    JoinOneTwoThree();
  }

  /** A leading capital produces an extra one-letter word. */
  lemma UnderscoreLeadingCapital()
    ensures CamelCaseToUnderscore("Foo") == Some("f_foo")
  {
    assert IsUpper('F') && ToLower('F') == 'f';
    UnderscorePerChar("Foo");
    assert "Foo"[1..] == "oo";
    SpreadNoUpper("oo");
    assert ['f', '_'] + ['f'] + "oo" == "f_foo";
  }

  // ---------------------------------------------------------------------
  // round trip

  /** A well-formed snake_case word: non-empty, lower-case letters and
      digits, starting with a letter. */
  predicate SnakeWord(w: string) {
    |w| > 0 && IsLower(w[0]) && forall i :: 0 <= i < |w| ==> IsLower(w[i]) || IsDigit(w[i])
  }

  predicate SnakeWords(ws: seq<string>) {
    |ws| >= 1 && forall i :: 0 <= i < |ws| ==> SnakeWord(ws[i])
  }

  /** After its first letter a snake word has no capitals to spread. */
  lemma SpreadWordTail(q: string)
    requires SnakeWord(q)
    ensures Spread(q[1..]) == q[1..]
  {
    forall i | 0 <= i < |q[1..]| ensures !IsUpper(q[1..][i]) {
      assert q[1..][i] == q[i + 1];
    }
    SpreadNoUpper(q[1..]);
  }

  lemma SpreadHeadUpper(s: string)
    requires |s| > 0 && IsUpper(s[0])
    ensures Spread(s) == ['_', ToLower(s[0])] + Spread(s[1..])
  {
  }

  lemma ConsHead(x: char, q: string)
    requires |q| > 0
    ensures [x, q[0]] + q[1..] == [x] + q
  {
  }

  /** A word starting with a lower-case letter and without capitals after
      it spreads, once capitalised, to `_` and the word. */
  lemma SpreadCapitalised(q: string)
    requires |q| > 0 && IsLower(q[0]) && Spread(q[1..]) == q[1..]
    ensures Spread(Upper(q)) == ['_'] + q
  {
    var u := Upper(q);
    assert u[0] == ToUpper(q[0]) && u[1..] == q[1..];
    SpreadHeadUpper(u);
    LowerOfUpper(q[0]);
    ConsHead('_', q);
  }

  /** Spreading a capitalised snake word gives `_` and the word. */
  lemma SpreadUpperWord(q: string)
    requires SnakeWord(q)
    ensures Spread(Upper(q)) == ['_'] + q
  {
    SpreadWordTail(q);
    SpreadCapitalised(q);
  }

  lemma {:induction false} SpreadUpperAll(qs: seq<string>)
    requires forall i :: 0 <= i < |qs| ==> SnakeWord(qs[i])
    ensures Spread(Concat(UpperAll(qs))) == JoinTail(qs, '_')
  {
    if |qs| > 0 {
      var ups := UpperAll(qs);
      assert ups[1..] == UpperAll(qs[1..]);
      assert Concat(ups) == Upper(qs[0]) + Concat(ups[1..]);
      SpreadConcat(Upper(qs[0]), Concat(ups[1..]));
      SpreadUpperWord(qs[0]);
      SpreadUpperAll(qs[1..]);
    }
  }

  /** For a name of well-formed snake_case words, converting to camelCase and
      back gives the name again. */
  lemma CamelRoundTrip(ws: seq<string>)
    requires SnakeWords(ws)
    ensures CamelCaseToUnderscore(CamelCase(Join(ws, '_'))) == Some(Join(ws, '_'))
  {
    CamelOfSnake(ws);
    UnderscoreOfCamel(ws);
  }

  lemma CamelOfSnake(ws: seq<string>)
    requires SnakeWords(ws)
    ensures CamelCase(Join(ws, '_')) == ws[0] + Concat(UpperAll(ws[1..]))
  {
    forall i | 0 <= i < |ws| ensures '_' !in ws[i] {
      var w := ws[i];
      assert forall k :: 0 <= k < |w| ==> w[k] != '_';
    }
    CamelCaseOfJoin(ws);
  }

  lemma UnderscoreOfCamel(ws: seq<string>)
    requires SnakeWords(ws)
    ensures CamelCaseToUnderscore(ws[0] + Concat(UpperAll(ws[1..]))) == Some(Join(ws, '_'))
  {
    var w0 := ws[0];
    var camel := w0 + Concat(UpperAll(ws[1..]));
    assert camel[0] == w0[0];
    assert camel[1..] == w0[1..] + Concat(UpperAll(ws[1..]));
    assert !IsUpper(w0[0]) && ToLower(w0[0]) == w0[0];
    UnderscorePerChar(camel);
    SpreadSnakeTail(ws);
    var j := JoinTail(ws[1..], '_');
    assert CamelCaseToUnderscore(camel) == Some([] + [w0[0]] + (w0[1..] + j));
    assert [] + [w0[0]] + (w0[1..] + j) == w0 + j;
  }

  /** After the first character, converting back spreads the rest of the
      first word unchanged and each capitalised later word into `_word`. */
  lemma SpreadSnakeTail(ws: seq<string>)
    requires SnakeWords(ws)
    ensures Spread(ws[0][1..] + Concat(UpperAll(ws[1..]))) == ws[0][1..] + JoinTail(ws[1..], '_')
  {
    var w0 := ws[0];
    SpreadConcat(w0[1..], Concat(UpperAll(ws[1..])));
    forall i | 0 <= i < |w0[1..]| ensures !IsUpper(w0[1..][i]) {
      assert w0[1..][i] == w0[i + 1];
    }
    SpreadNoUpper(w0[1..]);
    SpreadUpperAll(ws[1..]);
  }
}
