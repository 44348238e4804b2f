/** SQL LIKE with escape '\', and the pattern that means a literal prefix. */
module Like {
  /** `text like pattern escape '\'`. A pattern that ends in a lone escape
      character matches nothing here; the database rejects it. */
  ghost predicate Matches(pattern: string, text: string)
    decreases |pattern| + |text|
  {
    if pattern == "" then text == ""
    else if pattern[0] == '\\' then
      |pattern| >= 2 && text != "" && text[0] == pattern[1] && Matches(pattern[2..], text[1..])
    else if pattern[0] == '%' then
      Matches(pattern[1..], text) || (text != "" && Matches(pattern, text[1..]))
    else
      text != "" && (pattern[0] == '_' || text[0] == pattern[0]) && Matches(pattern[1..], text[1..])
  }

  predicate Meta(c: char) { c == '\\' || c == '%' || c == '_' }

  function Escaped(prefix: string): string {
    if prefix == "" then ""
    else (if Meta(prefix[0]) then ['\\', prefix[0]] else [prefix[0]]) + Escaped(prefix[1..])
  }

  lemma {:induction false} EscapedAppend(a: string, c: char)
    ensures Escaped(a + [c]) == Escaped(a) + if Meta(c) then ['\\', c] else [c]
  {
    if a == "" {
      assert a + [c] == [c];
      assert [c][1..] == "";
    } else {
      assert (a + [c])[1..] == a[1..] + [c];
      EscapedAppend(a[1..], c);
    }
  }

  lemma {:induction false} PercentMatchesAll(text: string)
    ensures Matches("%", text)
  {
    if text == "" {
      assert Matches("%"[1..], text);
    } else {
      PercentMatchesAll(text[1..]);
    }
  }

  /** The escaped prefix followed by % matches exactly the texts that start with
      the literal prefix, whatever wildcards the prefix contains. */
  lemma {:induction false} PrefixPattern(prefix: string, text: string)
    ensures Matches(Escaped(prefix) + "%", text) <==> prefix <= text
  {
    if prefix == "" {
      assert Escaped(prefix) + "%" == "%";
      PercentMatchesAll(text);
    } else {
      var c, p := prefix[0], Escaped(prefix) + "%";
      var rest := Escaped(prefix[1..]) + "%";
      if text != "" {
        PrefixPattern(prefix[1..], text[1..]);
        assert prefix <= text <==> text[0] == c && prefix[1..] <= text[1..];
      }
      if Meta(c) {
        assert p == ['\\', c] + rest && p[2..] == rest;
      } else {
        assert p == [c] + rest && p[1..] == rest;
      }
    }
  }

  method LikePrefixPattern(prefix: string) returns (pattern: string)
    ensures forall text :: Matches(pattern, text) <==> prefix <= text
    ensures pattern == Escaped(prefix) + "%"
  {
    var b := "";
    for i := 0 to |prefix|
      invariant b == Escaped(prefix[..i])
    {
      EscapedAppend(prefix[..i], prefix[i]);
      assert prefix[..i] + [prefix[i]] == prefix[..i + 1];
      if Meta(prefix[i]) { b := b + "\\"; }
      b := b + [prefix[i]];
    }
    assert prefix[..|prefix|] == prefix;
    pattern := b + "%";
    forall text ensures Matches(pattern, text) <==> prefix <= text { PrefixPattern(prefix, text); }
  }
}
