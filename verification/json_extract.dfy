/** The scanner on printed JSON: whatever an array holds, its brackets are found. */
module JsonExtract {
  import opened JsonScan
  import opened JsonGrammar

  // ---- The scanner on the grammar -------------------------------------------------

  /** Inside a string nothing counts: each item is read without leaving it. */
  lemma NeutralItem(st: Scan, it: Item)
    requires st.inStr && !st.esc && IsItem(it)
    ensures Neutral(st, PrintItem(it))
  {
    match it
    case Plain(c) =>
      RunOne(st, c);
      assert [c][..0] == "" && [c][..1] == [c];
    case Escape(c) =>
      RunOne(st, '\\');
      RunAppend(st, ['\\'], [c]);
      RunOne(st.(esc := true), c);
      assert ['\\', c] == ['\\'] + [c];
      assert ['\\', c][..0] == "" && ['\\', c][..1] == ['\\'] && ['\\', c][..2] == ['\\', c];
    case Unicode(hex) =>
      UnicodeLead(st);
      assert forall c :: c in hex ==> Quiet(c);
      InsideQuiet(st, hex);
      NeutralAppend(st, "\\u", hex);
  }

  lemma UnicodeLead(st: Scan)
    requires st.inStr && !st.esc
    ensures Neutral(st, "\\u")
  {
    var s := "\\u";
    RunOne(st, '\\');
    RunOne(st.(esc := true), 'u');
    RunAppend(st, "\\", "u");
    assert s == "\\" + "u";
    assert s[..0] == "" && s[..1] == "\\" && s[..2] == s;
  }

  lemma {:induction false} NeutralItems(st: Scan, items: seq<Item>)
    requires st.inStr && !st.esc && IsString(items)
    ensures Neutral(st, PrintItems(items))
  {
    if items == [] {
      assert ""[..0] == "";
    } else {
      NeutralItem(st, items[0]);
      NeutralItems(st, items[1..]);
      NeutralAppend(st, PrintItem(items[0]), PrintItems(items[1..]));
    }
  }

  lemma NeutralString(st: Scan, items: seq<Item>)
    requires !st.inStr && !st.esc && IsString(items)
    ensures Neutral(st, PrintString(items))
  {
    NeutralItems(st.(inStr := true), items);
    NeutralWrap(st, '"', PrintItems(items), '"');
    assert PrintString(items) == ['"'] + PrintItems(items) + ['"'];
  }

  lemma QuietNumber(n: Number)
    requires IsNumber(n)
    ensures forall c :: c in PrintNumber(n) ==> Quiet(c)
  {
    var marks := ["", "e", "E", "e+", "E+", "e-", "E-"];
    assert n.expMark in marks;
  }

  lemma NeutralWs(st: Scan, ws: string)
    requires !st.inStr && !st.esc && IsWs(ws)
    ensures Neutral(st, ws)
  {
    NeutralQuiet(st, ws);
  }

  /** A value, wherever it stands outside a string, is neutral. */
  lemma {:induction false} NeutralJson(st: Scan, j: Json)
    requires !st.inStr && !st.esc && IsJson(j)
    ensures Neutral(st, Print(j))
    decreases j
  {
    match j
    case True => NeutralQuiet(st, "true");
    case False => NeutralQuiet(st, "false");
    case Null => NeutralQuiet(st, "null");
    case Num(n) =>
      QuietNumber(n);
      NeutralQuiet(st, PrintNumber(n));
    case Str(items) => NeutralString(st, items);
    case Arr(es) =>
      NeutralElems(st.(depth := st.depth + 1), es);
      NeutralWrap(st, '[', PrintElems(es), ']');
      assert Print(j) == ['['] + PrintElems(es) + [']'];
    case Obj(ms) =>
      NeutralMembers(st, ms);
      NeutralWrap(st, '{', PrintMembers(ms), '}');
      assert Print(j) == ['{'] + PrintMembers(ms) + ['}'];
  }

  lemma NeutralSlot(st: Scan, b: string, v: Json, a: string)
    requires !st.inStr && !st.esc && IsWs(b) && IsWs(a) && Neutral(st, Print(v))
    ensures Neutral(st, b + Print(v) + a)
  {
    NeutralWs(st, b);
    NeutralWs(st, a);
    NeutralAppend(st, b, Print(v));
    NeutralAppend(st, b + Print(v), a);
  }

  lemma {:induction false} NeutralElems(st: Scan, es: Elems)
    requires !st.inStr && !st.esc && IsElems(es)
    ensures Neutral(st, PrintElems(es))
    decreases es
  {
    match es
    case NoElems(ws) => NeutralWs(st, ws);
    case Elem(b, v, a, rest) =>
      NeutralJson(st, v);
      NeutralSlot(st, b, v, a);
      NeutralMore(st, rest);
      NeutralAppend(st, b + Print(v) + a, PrintMore(rest));
  }

  lemma {:induction false} NeutralMore(st: Scan, es: MoreElems)
    requires !st.inStr && !st.esc && IsMore(es)
    ensures Neutral(st, PrintMore(es))
    decreases es
  {
    match es
    case EndElems => assert ""[..0] == "";
    case AndElem(b, v, a, rest) =>
      NeutralJson(st, v);
      NeutralSlot(st, b, v, a);
      NeutralMore(st, rest);
      NeutralQuiet(st, ",");
      NeutralAppend(st, ",", b + Print(v) + a);
      NeutralAppend(st, "," + (b + Print(v) + a), PrintMore(rest));
      assert "," + b + Print(v) + a + PrintMore(rest) == "," + (b + Print(v) + a) + PrintMore(rest);
  }

  lemma {:induction false} NeutralMembers(st: Scan, ms: Members)
    requires !st.inStr && !st.esc && IsMembers(ms)
    ensures Neutral(st, PrintMembers(ms))
    decreases ms
  {
    match ms
    case NoMembers(ws) => NeutralWs(st, ws);
    case Member(p, rest) =>
      NeutralPair(st, p);
      NeutralMoreMembers(st, rest);
      NeutralAppend(st, PrintPair(p), PrintMoreMembers(rest));
  }

  lemma {:induction false} NeutralMoreMembers(st: Scan, ms: MoreMembers)
    requires !st.inStr && !st.esc && IsMoreMembers(ms)
    ensures Neutral(st, PrintMoreMembers(ms))
    decreases ms
  {
    match ms
    case EndMembers => assert ""[..0] == "";
    case AndMember(p, rest) =>
      NeutralPair(st, p);
      NeutralMoreMembers(st, rest);
      NeutralQuiet(st, ",");
      NeutralAppend(st, ",", PrintPair(p));
      NeutralAppend(st, "," + PrintPair(p), PrintMoreMembers(rest));
  }

  lemma {:induction false} NeutralPair(st: Scan, p: Pair)
    requires !st.inStr && !st.esc && IsPair(p)
    ensures Neutral(st, PrintPair(p))
    decreases p
  {
    NeutralWs(st, p.before);
    NeutralString(st, p.name);
    NeutralWs(st, p.mid1);
    NeutralQuiet(st, ":");
    NeutralJson(st, p.value);
    NeutralSlot(st, p.mid2, p.value, p.after);
    var head := p.before + PrintString(p.name) + p.mid1 + ":";
    NeutralAppend(st, p.before, PrintString(p.name));
    NeutralAppend(st, p.before + PrintString(p.name), p.mid1);
    NeutralAppend(st, p.before + PrintString(p.name) + p.mid1, ":");
    NeutralAppend(st, head, p.mid2 + Print(p.value) + p.after);
    assert PrintPair(p) == head + (p.mid2 + Print(p.value) + p.after);
  }

  // ---- What is extracted ----------------------------------------------------------

  /** A printed array is balanced, and no proper prefix of it is. */
  lemma ArrayIsBalanced(es: Elems)
    requires IsElems(es)
    ensures var t := Print(Arr(es));
      Depth(t) == 0 && forall k :: 0 < k < |t| ==> Depth(t[..k]) > 0
  {
    NeutralElems(Scan(1, false, false), es);
    NeutralWrap(Outside, '[', PrintElems(es), ']');
    assert Print(Arr(es)) == ['['] + PrintElems(es) + [']'];
  }

  /** Whatever prose without '[' comes before it and whatever comes after, the
      printed array is the one shortest span. */
  lemma PrintedArrayIsTheSpan(prefix: string, es: Elems, suffix: string)
    requires '[' !in prefix && IsElems(es)
    ensures ShortestSpan(prefix + Print(Arr(es)) + suffix, Print(Arr(es)))
    ensures !NoSpan(prefix + Print(Arr(es)) + suffix)
  {
    var t := Print(Arr(es));
    var s := prefix + t + suffix;
    var start, end := |prefix|, |prefix| + |t|;
    ArrayIsBalanced(es);
    assert s[start] == t[0] == '[' && forall j :: 0 <= j < start ==> s[j] == prefix[j];
    assert s[start..end] == t;
    forall k | start < k < end ensures Depth(s[start..k]) > 0 { assert s[start..k] == t[..k - start]; }
    assert Span(s, start, end);
  }

  /** What ExtractJSONArray promises of its result pins it down: on such a text it
      is the printed array, brackets and escaped quotes inside strings included. */
  lemma ExtractedIsPrinted(prefix: string, es: Elems, suffix: string, r: string)
    requires '[' !in prefix && IsElems(es)
    requires r != "" ==> ShortestSpan(prefix + Print(Arr(es)) + suffix, r)
    requires r == "" ==> NoSpan(prefix + Print(Arr(es)) + suffix)
    ensures r == Print(Arr(es))
  {
    PrintedArrayIsTheSpan(prefix, es, suffix);
    SpanIsUnique(prefix + Print(Arr(es)) + suffix, r, Print(Arr(es)));
  }
}
