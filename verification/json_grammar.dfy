/** The JSON grammar of sections 2 to 7 of RFC 8259, as values and their printed
    forms. */
module JsonGrammar {
  predicate IsWs(s: string) { forall c :: c in s ==> c == ' ' || c == '\t' || c == '\n' || c == '\r' }

  predicate IsDigits(s: string) { s != "" && forall c :: c in s ==> '0' <= c <= '9' }

  /** Section 6: an integer part without superfluous zeros, then an optional
      fraction and an optional exponent. */
  datatype Number = Number(minus: bool, whole: string, frac: string, expMark: string, expDigits: string)

  predicate IsNumber(n: Number) {
    && IsDigits(n.whole) && (n.whole[0] == '0' ==> n.whole == "0")
    && (n.frac == "" || IsDigits(n.frac))
    && (n.expMark in {"", "e", "E", "e+", "E+", "e-", "E-"})
    && (if n.expMark == "" then n.expDigits == "" else IsDigits(n.expDigits))
  }

  function PrintNumber(n: Number): string {
    (if n.minus then "-" else "") + n.whole + (if n.frac == "" then "" else "." + n.frac) + n.expMark + n.expDigits
  }

  /** Section 7: unescaped characters, two-character escapes, four-digit escapes. */
  datatype Item = Plain(c: char) | Escape(c: char) | Unicode(hex: string)

  predicate IsItem(it: Item) {
    match it
    case Plain(c) => c >= ' ' && c != '"' && c != '\\'
    case Escape(c) => c in "\"\\/bfnrt"
    case Unicode(hex) => |hex| == 4 && forall c :: c in hex ==> IsHex(c)
  }

  predicate IsHex(c: char) { '0' <= c <= '9' || 'a' <= c <= 'f' || 'A' <= c <= 'F' }

  function PrintItem(it: Item): string {
    match it case Plain(c) => [c] case Escape(c) => ['\\', c] case Unicode(hex) => "\\u" + hex
  }

  function PrintItems(items: seq<Item>): string {
    if items == [] then "" else PrintItem(items[0]) + PrintItems(items[1..])
  }

  function PrintString(items: seq<Item>): string { "\"" + PrintItems(items) + "\"" }

  predicate IsString(items: seq<Item>) { forall it :: it in items ==> IsItem(it) }

  datatype Json =
    | True | False | Null
    | Num(n: Number)
    | Str(items: seq<Item>)
    | Arr(elems: Elems)
    | Obj(members: Members)

  /** Section 5. Whitespace may surround every element. */
  datatype Elems = NoElems(ws: string) | Elem(before: string, value: Json, after: string, rest: MoreElems)
  datatype MoreElems = EndElems | AndElem(before: string, value: Json, after: string, rest: MoreElems)

  /** Section 4. */
  datatype Members = NoMembers(ws: string) | Member(first: Pair, rest: MoreMembers)
  datatype MoreMembers = EndMembers | AndMember(next: Pair, rest: MoreMembers)
  datatype Pair = Pair(before: string, name: seq<Item>, mid1: string, mid2: string, value: Json, after: string)

  predicate IsJson(j: Json) {
    match j
    case Num(n) => IsNumber(n)
    case Str(items) => IsString(items)
    case Arr(es) => IsElems(es)
    case Obj(ms) => IsMembers(ms)
    case _ => true
  }

  predicate IsElems(es: Elems) {
    match es
    case NoElems(ws) => IsWs(ws)
    case Elem(b, v, a, rest) => IsWs(b) && IsJson(v) && IsWs(a) && IsMore(rest)
  }

  predicate IsMore(es: MoreElems) {
    match es
    case EndElems => true
    case AndElem(b, v, a, rest) => IsWs(b) && IsJson(v) && IsWs(a) && IsMore(rest)
  }

  predicate IsMembers(ms: Members) {
    match ms
    case NoMembers(ws) => IsWs(ws)
    case Member(p, rest) => IsPair(p) && IsMoreMembers(rest)
  }

  predicate IsMoreMembers(ms: MoreMembers) {
    match ms
    case EndMembers => true
    case AndMember(p, rest) => IsPair(p) && IsMoreMembers(rest)
  }

  predicate IsPair(p: Pair) {
    IsWs(p.before) && IsString(p.name) && IsWs(p.mid1) && IsWs(p.mid2) && IsJson(p.value) && IsWs(p.after)
  }

  function Print(j: Json): string {
    match j
    case True => "true"
    case False => "false"
    case Null => "null"
    case Num(n) => PrintNumber(n)
    case Str(items) => PrintString(items)
    case Arr(es) => "[" + PrintElems(es) + "]"
    case Obj(ms) => "{" + PrintMembers(ms) + "}"
  }

  function PrintElems(es: Elems): string {
    match es
    case NoElems(ws) => ws
    case Elem(b, v, a, rest) => b + Print(v) + a + PrintMore(rest)
  }

  function PrintMore(es: MoreElems): string {
    match es
    case EndElems => ""
    case AndElem(b, v, a, rest) => "," + b + Print(v) + a + PrintMore(rest)
  }

  function PrintMembers(ms: Members): string {
    match ms
    case NoMembers(ws) => ws
    case Member(p, rest) => PrintPair(p) + PrintMoreMembers(rest)
  }

  function PrintMoreMembers(ms: MoreMembers): string {
    match ms
    case EndMembers => ""
    case AndMember(p, rest) => "," + PrintPair(p) + PrintMoreMembers(rest)
  }

  function PrintPair(p: Pair): string {
    p.before + PrintString(p.name) + p.mid1 + ":" + p.mid2 + Print(p.value) + p.after
  }
}
