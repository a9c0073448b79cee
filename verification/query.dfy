/** Query parameter keys of the form `prefix[name]`, as the patterns
    `^filter\[(\w+)\]$` and `^fields\[([a-zA-Z0-9\-_]+)\]$` match them.
    Python's `$` without the multiline flag also matches just before a
    final newline, so a key may carry one trailing `\n`. */
module QueryKeys {
  import opened Wrappers
  import opened Strings

  /** The characters of `[a-zA-Z0-9\-_]`. */
  predicate IsFieldsChar(c: char) {
    IsWordChar(c) || c == '-'
  }

  /** The bracketed name of `key` when `key` is `prefix`, a non-empty run
      of characters `ok` accepts, and `]`, optionally followed by one
      newline. */
  function MatchBracketed(prefix: string, key: string, ok: char -> bool): (r: Option<string>)
    ensures r.Some? ==> |r.value| > 0 && forall i :: 0 <= i < |r.value| ==> ok(r.value[i])
    ensures r.Some? ==> key == prefix + r.value + "]" || key == prefix + r.value + "]\n"
  {
    var body := if |key| > 0 && key[|key| - 1] == '\n' then key[..|key| - 1] else key;
    if |body| > |prefix| + 1 && body[..|prefix|] == prefix && body[|body| - 1] == ']'
       && forall i :: |prefix| <= i < |body| - 1 ==> ok(body[i])
    then
      var name := body[|prefix|..|body| - 1];
      assert body == prefix + name + "]";
      Some(name)
    else None
  }

  /** Every well-formed bracketed key matches, with or without the final
      newline, and gives back its name. */
  lemma MatchBracketedKey(prefix: string, name: string, ok: char -> bool)
    requires |name| > 0 && forall i :: 0 <= i < |name| ==> ok(name[i])
    ensures MatchBracketed(prefix, prefix + name + "]", ok) == Some(name)
    ensures MatchBracketed(prefix, prefix + name + "]\n", ok) == Some(name)
  {
    var key := prefix + name + "]";
    assert (key + "\n")[..|key|] == key;
    assert key[..|prefix|] == prefix;
    assert key[|prefix|..|key| - 1] == name;
    assert forall i :: |prefix| <= i < |key| - 1 ==> key[i] == name[i - |prefix|];
    assert prefix + name + "]\n" == key + "\n";
  }
}
