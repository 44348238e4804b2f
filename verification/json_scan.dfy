/** Pulling the first JSON array out of prose: a bracket counter that knows about
    strings. One `char` stands for one byte of the text. */
module JsonScan {
  // ---- The scanner --------------------------------------------------------------

  datatype Scan = Scan(depth: int, inStr: bool, esc: bool)

  function Step(st: Scan, c: char): Scan {
    if st.esc then st.(esc := false)
    else if c == '\\' && st.inStr then st.(esc := true)
    else if c == '"' then st.(inStr := !st.inStr)
    else if st.inStr then st
    else if c == '[' then st.(depth := st.depth + 1)
    else if c == ']' then st.(depth := st.depth - 1)
    else st
  }

  function Run(st: Scan, s: string): Scan {
    if s == "" then st else Step(Run(st, s[..|s| - 1]), s[|s| - 1])
  }

  const Outside := Scan(0, false, false)

  /** Brackets open after reading `s`, strings discounted. */
  function Depth(s: string): int { Run(Outside, s).depth }

  ghost predicate FirstOpen(s: string, start: int) {
    0 <= start < |s| && s[start] == '[' && forall j :: 0 <= j < start ==> s[j] != '['
  }

  /** s[start..end] is balanced, and no shorter span from `start` is. */
  ghost predicate Span(s: string, start: int, end: int) {
    && FirstOpen(s, start) && start < end <= |s|
    && Depth(s[start..end]) == 0 && forall k :: start < k < end ==> Depth(s[start..k]) > 0
  }

  /** `r` is the shortest balanced span that begins at the first '['. */
  ghost predicate ShortestSpan(s: string, r: string) {
    exists start, end :: Span(s, start, end) && r == s[start..end]
  }

  /** No balanced span begins at the first '['. */
  ghost predicate NoSpan(s: string) {
    forall start, end :: FirstOpen(s, start) && start < end <= |s| ==> Depth(s[start..end]) != 0
  }

  method IndexOpen(s: string) returns (start: int)
    ensures start < 0 ==> forall j :: 0 <= j < |s| ==> s[j] != '['
    ensures start >= 0 ==> FirstOpen(s, start)
  {
    start := 0;
    while start < |s|
      invariant 0 <= start <= |s| && forall j :: 0 <= j < start ==> s[j] != '['
    {
      if s[start] == '[' { return; }
      start := start + 1;
    }
    return -1;
  }

  method ExtractJSONArray(s: string) returns (r: string)
    ensures r != "" ==> ShortestSpan(s, r)
    ensures r == "" ==> NoSpan(s)
  {
    var start := IndexOpen(s);
    if start < 0 { return ""; }
    var depth, inStr, esc := 0, false, false;
    var i := start;
    while i < |s|
      invariant start <= i <= |s|
      invariant Scan(depth, inStr, esc) == Run(Outside, s[start..i])
      invariant forall k :: start < k <= i ==> Depth(s[start..k]) > 0
      invariant i == start ==> depth == 0 && !inStr && !esc
    {
      var c := s[i];
      assert s[start..i + 1][..i - start] == s[start..i] && s[start..i + 1][i - start] == c;
      assert Run(Outside, s[start..i + 1]) == Step(Run(Outside, s[start..i]), c);
      if esc {
        esc := false;
      } else if c == '\\' && inStr {
        esc := true;
      } else if c == '"' {
        inStr := !inStr;
      } else if inStr {
      } else if c == '[' {
        depth := depth + 1;
      } else if c == ']' {
        depth := depth - 1;
        if depth == 0 {
          assert Span(s, start, i + 1);
          return s[start..i + 1];
        }
      }
      i := i + 1;
    }
    return "";
  }

  lemma SpanIsUnique(s: string, r: string, t: string)
    requires ShortestSpan(s, r) && ShortestSpan(s, t)
    ensures r == t
  {
  }

  // ---- Text that leaves the scanner where it was -----------------------------------

  lemma {:induction false} RunAppend(st: Scan, a: string, b: string)
    ensures Run(st, a + b) == Run(Run(st, a), b)
  {
    if b == "" {
      assert a + b == a;
    } else {
      assert (a + b)[..|a + b| - 1] == a + b[..|b| - 1];
      RunAppend(st, a, b[..|b| - 1]);
    }
  }

  /** Reading `s` returns the scanner to where it was without ever going below. */
  ghost predicate Neutral(st: Scan, s: string) {
    Run(st, s) == st && forall k :: 0 <= k <= |s| ==> Run(st, s[..k]).depth >= st.depth
  }

  lemma NeutralAppend(st: Scan, a: string, b: string)
    requires Neutral(st, a) && Neutral(st, b)
    ensures Neutral(st, a + b)
  {
    RunAppend(st, a, b);
    forall k | 0 <= k <= |a + b| ensures Run(st, (a + b)[..k]).depth >= st.depth {
      if k <= |a| {
        assert (a + b)[..k] == a[..k];
      } else {
        assert (a + b)[..k] == a + b[..k - |a|];
        RunAppend(st, a, b[..k - |a|]);
      }
    }
  }

  predicate Quiet(c: char) { c != '"' && c != '[' && c != ']' && c != '\\' }

  /** Text free of quotes, brackets and backslashes is never noticed. */
  lemma {:induction false} NeutralQuiet(st: Scan, s: string)
    requires !st.inStr && !st.esc && forall c :: c in s ==> Quiet(c)
    ensures Neutral(st, s)
    decreases |s|
  {
    if s == "" {
      assert s[..0] == "";
    } else {
      var n := |s| - 1;
      assert s[n] in s;
      NeutralQuiet(st, s[..n]);
      forall k | 0 <= k <= |s| ensures Run(st, s[..k]).depth >= st.depth {
        if k <= n { assert s[..n][..k] == s[..k]; } else { assert s[..k] == s; }
      }
    }
  }

  lemma RunOne(st: Scan, c: char)
    ensures Run(st, [c]) == Step(st, c)
  {
    assert [c][..0] == "";
  }

  lemma {:induction false} InsideQuiet(st: Scan, s: string)
    requires st.inStr && !st.esc && forall c :: c in s ==> Quiet(c)
    ensures Neutral(st, s)
    decreases |s|
  {
    if s == "" {
      assert s[..0] == "";
    } else {
      var n := |s| - 1;
      assert s[n] in s;
      InsideQuiet(st, s[..n]);
      forall k | 0 <= k <= |s| ensures Run(st, s[..k]).depth >= st.depth {
        if k <= n { assert s[..n][..k] == s[..k]; } else { assert s[..k] == s; }
      }
    }
  }

  /** `open + body + close`, when the opener moves the scanner to a state in which
      the body is neutral and from which the closer moves it back. */
  lemma NeutralWrap(st: Scan, open: char, body: string, close: char)
    requires var inner := Step(st, open);
      inner.depth >= st.depth && Neutral(inner, body) && Step(inner, close) == st
    ensures Neutral(st, [open] + body + [close])
    ensures forall k :: 0 < k < |body| + 2 ==> Run(st, ([open] + body + [close])[..k]).depth >= Step(st, open).depth
  {
    var inner := Step(st, open);
    var s := [open] + body + [close];
    RunOne(st, open);
    RunOne(inner, close);
    RunAppend(st, [open], body);
    RunAppend(st, [open] + body, [close]);
    forall k | 0 < k < |s| ensures Run(st, s[..k]).depth >= inner.depth {
      assert s[..k] == [open] + body[..k - 1];
      RunAppend(st, [open], body[..k - 1]);
    }
    assert s[..0] == "" && s[..|s|] == s;
  }
}
