/** Python `str` operations the source relies on, restricted to ASCII:
    `split`, `join`, `upper`/`lower` of one character, `isupper`,
    the regex class `\w`, `endswith`, and `str()` of an integer. */
module Strings {

  predicate IsUpper(c: char) {
    'A' <= c <= 'Z'
  }

  predicate IsLower(c: char) {
    'a' <= c <= 'z'
  }

  predicate IsDigit(c: char) {
    '0' <= c <= '9'
  }

  /** The characters of the regex class `\w` (ASCII only). */
  predicate IsWordChar(c: char) {
    IsUpper(c) || IsLower(c) || IsDigit(c) || c == '_'
  }

  function ToUpper(c: char): (r: char)
    ensures IsLower(c) ==> IsUpper(r)
    ensures !IsLower(c) ==> r == c
  {
    if IsLower(c) then (c as int - 32) as char else c
  }

  function ToLower(c: char): (r: char)
    ensures IsUpper(c) ==> IsLower(r)
    ensures !IsUpper(c) ==> r == c
  {
    if IsUpper(c) then (c as int + 32) as char else c
  }

  lemma LowerOfUpper(c: char)
    requires IsLower(c)
    ensures ToLower(ToUpper(c)) == c
  {
  }

  /** `sep.join(parts)`. */
  function Join(parts: seq<string>, sep: char): string
  {
    if |parts| == 0 then "" else parts[0] + JoinTail(parts[1..], sep)
  }

  /** The text `sep.join` emits after the first part: each later part preceded by `sep`. */
  function JoinTail(parts: seq<string>, sep: char): string
  {
    if |parts| == 0 then "" else [sep] + parts[0] + JoinTail(parts[1..], sep)
  }

  /** `''.join(parts)`. */
  function Concat(parts: seq<string>): string
  {
    if |parts| == 0 then "" else parts[0] + Concat(parts[1..])
  }

  /** `s.split(sep)` for a one-character separator: never empty, and the pieces
      contain no separator and join back to `s`. */
  function Split(s: string, sep: char): (r: seq<string>)
    ensures |r| >= 1
    ensures forall i :: 0 <= i < |r| ==> sep !in r[i]
    ensures Join(r, sep) == s
  {
    if |s| == 0 then [""]
    else
      var rest := Split(s[1..], sep);
      if s[0] == sep then
        assert Join([""] + rest, sep) == [sep] + Join(rest, sep) by {
          assert ([""] + rest)[1..] == rest;
        }
        [""] + rest
      else
        var r := [[s[0]] + rest[0]] + rest[1..];
        assert Join(r, sep) == [s[0]] + Join(rest, sep) by {
          assert r[1..] == rest[1..];
        }
        r
  }

  lemma JoinTailCons(w: string, rest: seq<string>, sep: char)
    ensures JoinTail([w] + rest, sep) == [sep] + w + JoinTail(rest, sep)
  {
    assert ([w] + rest)[0] == w && ([w] + rest)[1..] == rest;
  }

  lemma {:induction false} JoinTailAppend(parts: seq<string>, w: string, sep: char)
    ensures JoinTail(parts + [w], sep) == JoinTail(parts, sep) + [sep] + w
    decreases |parts|
  {
    if |parts| == 0 {
      assert parts + [w] == [w];
    } else {
      assert (parts + [w])[1..] == parts[1..] + [w];
      JoinTailAppend(parts[1..], w, sep);
    }
  }

  /** Appending a part to `sep.join` adds the separator and the part at the end. */
  lemma {:induction false} JoinAppend(parts: seq<string>, w: string, sep: char)
    requires |parts| >= 1
    ensures Join(parts + [w], sep) == Join(parts, sep) + [sep] + w
  {
    assert (parts + [w])[0] == parts[0];
    assert (parts + [w])[1..] == parts[1..] + [w];
    JoinTailAppend(parts[1..], w, sep);
  }

  lemma SplitCons(c: char, s: string, sep: char)
    ensures Split([c] + s, sep)
         == if c == sep then [""] + Split(s, sep) else [[c] + Split(s, sep)[0]] + Split(s, sep)[1..]
  {
    assert ([c] + s)[0] == c && ([c] + s)[1..] == s;
  }

  lemma JoinEmptyHead(tail: seq<string>, sep: char)
    requires |tail| >= 1
    ensures Join([[]] + tail, sep) == [sep] + Join(tail, sep)
  {
    var e: string := [];
    assert ([e] + tail)[1..] == tail;
    assert Join([e] + tail, sep) == e + JoinTail(tail, sep);
    assert JoinTail(tail, sep) == [sep] + Join(tail, sep);
  }

  lemma JoinHeadChar(p: string, rest: seq<string>, sep: char)
    requires |p| > 0
    ensures Join([p] + rest, sep) == [p[0]] + Join([p[1..]] + rest, sep)
  {
    var q := p[1..];
    var t := JoinTail(rest, sep);
    assert Join([p] + rest, sep) == p + t by {
      assert ([p] + rest)[0] == p && ([p] + rest)[1..] == rest;
    }
    assert Join([q] + rest, sep) == q + t by {
      assert ([q] + rest)[0] == q && ([q] + rest)[1..] == rest;
    }
    assert p == [p[0]] + q;
    assert ([p[0]] + q) + t == [p[0]] + (q + t);
  }

  /** Splitting undoes joining when no part contains the separator. */
  lemma {:induction false} SplitJoin(parts: seq<string>, sep: char)
    requires |parts| >= 1
    requires forall i :: 0 <= i < |parts| ==> sep !in parts[i]
    ensures Split(Join(parts, sep), sep) == parts
    decreases |parts|, |parts[0]|
  {
    var p := parts[0];
    if |parts| == 1 {
      assert Join(parts, sep) == p;
      SplitNoSep(p, sep);
    } else if |p| == 0 {
      var tail := parts[1..];
      assert parts == [""] + tail;
      JoinEmptyHead(tail, sep);
      SplitJoin(tail, sep);
      SplitCons(sep, Join(tail, sep), sep);
    } else {
      var rest := parts[1..];
      var shorter := [p[1..]] + rest;
      assert parts == [p] + rest;
      JoinHeadChar(p, rest, sep);
      assert sep != p[0] && sep !in p[1..] by {
        assert forall c :: c in p[1..] ==> c in p;
      }
      assert forall i :: 0 <= i < |shorter| ==> sep !in shorter[i] by {
        assert forall i :: 1 <= i < |shorter| ==> shorter[i] == parts[i];
      }
      SplitJoin(shorter, sep);
      SplitCons(p[0], Join(shorter, sep), sep);
      assert shorter[1..] == rest;
      assert [p[0]] + p[1..] == p;
    }
  }

  lemma {:induction false} SplitNoSep(s: string, sep: char)
    requires sep !in s
    ensures Split(s, sep) == [s]
    decreases |s|
  {
    if |s| > 0 {
      assert sep !in s[1..] by {
        assert forall c :: c in s[1..] ==> c in s;
      }
      SplitNoSep(s[1..], sep);
      assert [s[0]] + s[1..] == s;
    }
  }

  predicate EndsWith(s: string, suffix: string) {
    |suffix| <= |s| && s[|s| - |suffix|..] == suffix
  }

  /** Decimal digits of a natural number, as Python's `str(n)`. */
  function NatToString(n: nat): (r: string)
    ensures |r| >= 1
    ensures forall i :: 0 <= i < |r| ==> IsDigit(r[i])
    decreases n
  {
    var d := ['0' + (n % 10) as char];
    if n < 10 then d else NatToString(n / 10) + d
  }

  /** Python's `str(i)` for an integer. */
  function IntToString(i: int): string
  {
    if i < 0 then "-" + NatToString(-i) else NatToString(i)
  }
}
