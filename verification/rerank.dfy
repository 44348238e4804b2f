/** From a model's ranking to reordered results: parse, score repair, completion
    and reorder, and the one permutation they amount to. */
module Rerank {
  import opened Basics

  type ChunkId = string

  datatype Scored = Scored(id: ChunkId, score: real)

  /** One fused result; `rest` is everything else the row carries. */
  datatype Result = Result(id: ChunkId, score: real, rest: string)

  /** One decoded array element: a 1-based passage number and its score. */
  datatype Raw = Raw(id: int, score: real)

  datatype Entry = Entry(idx: nat, score: real)

  // ---- parseRanking -------------------------------------------------------------

  function Valid(raw: Raw, n: nat): bool { 1 <= raw.id <= n }

  function Indexes(es: seq<Entry>): seq<nat> {
    seq(|es|, i requires 0 <= i < |es| => es[i].idx)
  }

  /** The valid entries, first mention of each passage, in the model's order. */
  function Kept(raw: seq<Raw>, n: nat): seq<Entry> {
    if raw == [] then []
    else
      var last, init := raw[|raw| - 1], Kept(raw[..|raw| - 1], n);
      if Valid(last, n) && last.id - 1 !in Indexes(init) then init + [Entry(last.id - 1, last.score)] else init
  }

  method ParseRanking(raw: seq<Raw>, n: nat) returns (r: Option<seq<Entry>>)
    ensures r == if Kept(raw, n) == [] then None else Some(Kept(raw, n))
    ensures r.Some? ==> exists ps :: MentionOrder(raw, n, ps) && KeepsMentions(raw, ps, r.value)
    ensures r.None? <==> forall p: nat :: !FirstMention(raw, n, p)
  {
    var seen: set<nat> := {};
    var out: seq<Entry> := [];
    for k := 0 to |raw|
      invariant out == Kept(raw[..k], n)
      invariant forall i :: i in seen <==> i in Indexes(out)
    {
      assert raw[..k + 1][..k] == raw[..k];
      var i := raw[k].id - 1;
      if i < 0 || i >= n || i in seen { continue; }
      seen := seen + {i};
      ghost var before := out;
      out := out + [Entry(i, raw[k].score)];
      assert Indexes(out) == Indexes(before) + [i];
    }
    assert raw[..|raw|] == raw;
    KeptInOrder(raw, n);
    assert out != [] ==> Mentions(raw, n)[0] in Mentions(raw, n);
    return if out == [] then None else Some(out);
  }

  /** Each passage at most once, all in range, and exactly the passages the model
      named validly somewhere. */
  lemma {:induction false} KeptMeans(raw: seq<Raw>, n: nat)
    ensures Distinct(Indexes(Kept(raw, n)))
    ensures forall i: nat :: i in Indexes(Kept(raw, n)) <==> i < n && exists e :: e in raw && e.id == i + 1
  {
    if raw != [] {
      var m := |raw| - 1;
      KeptMeans(raw[..m], n);
      var init, out, last := Kept(raw[..m], n), Kept(raw, n), raw[m];
      assert raw == raw[..m] + [last];
      if Valid(last, n) && last.id - 1 !in Indexes(init) {
        assert Indexes(out) == Indexes(init) + [last.id - 1];
      }
      forall i: nat ensures i in Indexes(out) <==> i < n && exists e :: e in raw && e.id == i + 1 {
        if i < n && exists e :: e in raw && e.id == i + 1 {
          var e :| e in raw && e.id == i + 1;
          if e in raw[..m] { assert i in Indexes(init); } else { assert e == last; }
        }
        if i in Indexes(init) {
          var e :| e in raw[..m] && e.id == i + 1;
          assert e in raw;
        }
        if i in Indexes(out) && i !in Indexes(init) { assert last in raw && last.id == i + 1; }
      }
    }
  }

  /** Entry p of the reply is the first to name its passage, and validly. */
  ghost predicate FirstMention(raw: seq<Raw>, n: nat, p: nat) {
    p < |raw| && 1 <= raw[p].id <= n && forall q :: 0 <= q < p ==> raw[q].id != raw[p].id
  }

  /** `ps` lists the positions of all first mentions as they come in the reply. */
  ghost predicate MentionOrder(raw: seq<Raw>, n: nat, ps: seq<nat>) {
    && (forall i, j :: 0 <= i < j < |ps| ==> ps[i] < ps[j])
    && (forall p: nat :: p in ps <==> FirstMention(raw, n, p))
  }

  ghost function Mentions(raw: seq<Raw>, n: nat): seq<nat> {
    if raw == [] then []
    else
      var m := |raw| - 1;
      Mentions(raw[..m], n) + if FirstMention(raw, n, m) then [m] else []
  }

  lemma FirstMentionPrefix(raw: seq<Raw>, n: nat, m: nat, p: nat)
    requires p < m <= |raw|
    ensures FirstMention(raw[..m], n, p) <==> FirstMention(raw, n, p)
  {
    assert forall q :: 0 <= q <= p ==> raw[..m][q] == raw[q];
  }

  lemma OrderExtends(raw: seq<Raw>, n: nat, m: nat, ps: seq<nat>, qs: seq<nat>)
    requires m + 1 == |raw| && MentionOrder(raw[..m], n, ps)
    requires qs == ps + if FirstMention(raw, n, m) then [m] else []
    ensures MentionOrder(raw, n, qs)
  {
    forall i | 0 <= i < |ps| ensures ps[i] < m { assert ps[i] in ps && FirstMention(raw[..m], n, ps[i]); }
    forall p: nat ensures p in qs <==> FirstMention(raw, n, p) {
      if p < m { FirstMentionPrefix(raw, n, m, p); }
    }
  }

  lemma {:induction false} MentionsMean(raw: seq<Raw>, n: nat)
    ensures MentionOrder(raw, n, Mentions(raw, n))
  {
    if raw != [] {
      var m := |raw| - 1;
      MentionsMean(raw[..m], n);
      OrderExtends(raw, n, m, Mentions(raw[..m], n), Mentions(raw, n));
    }
  }

  /** The entries kept are those of the first mentions, in the reply's order, each with
      its own passage and score. */
  ghost predicate KeepsMentions(raw: seq<Raw>, ps: seq<nat>, es: seq<Entry>) {
    && |es| == |ps|
    && forall i :: 0 <= i < |ps| ==>
         ps[i] < |raw| && es[i].idx == raw[ps[i]].id - 1 && es[i].score == raw[ps[i]].score
  }

  lemma {:induction false} KeptInOrder(raw: seq<Raw>, n: nat)
    ensures KeepsMentions(raw, Mentions(raw, n), Kept(raw, n)) && MentionOrder(raw, n, Mentions(raw, n))
  {
    MentionsMean(raw, n);
    if raw != [] {
      var m := |raw| - 1;
      KeptInOrder(raw[..m], n);
      LastIsKeptIff(raw, n);
      forall p | p in Mentions(raw[..m], n) ensures p < m && raw[..m][p] == raw[p] {}
      forall i | 0 <= i < |Mentions(raw[..m], n)| ensures Mentions(raw[..m], n)[i] < m {
        assert Mentions(raw[..m], n)[i] in Mentions(raw[..m], n);
      }
    }
  }

  lemma LastIsKeptIff(raw: seq<Raw>, n: nat)
    requires raw != []
    ensures var m := |raw| - 1;
      FirstMention(raw, n, m) <==> Valid(raw[m], n) && raw[m].id - 1 !in Indexes(Kept(raw[..m], n))
  {
    var m := |raw| - 1;
    KeptMeans(raw[..m], n);
    if Valid(raw[m], n) {
      var i: nat := raw[m].id - 1;
      if e :| e in raw[..m] && e.id == i + 1 {
        var q :| 0 <= q < m && raw[..m][q] == e;
        assert raw[q].id == raw[m].id;
      }
      if q :| 0 <= q < m && raw[q].id == raw[m].id {
        assert raw[..m][q] in raw[..m];
      }
    }
  }

  /** A ranking without repeats or foreign passages is kept as it is. */
  lemma {:induction false} CleanRankingIsKept(raw: seq<Raw>, n: nat)
    requires forall i :: 0 <= i < |raw| ==> 1 <= raw[i].id <= n
    requires forall i, j :: 0 <= i < j < |raw| ==> raw[i].id != raw[j].id
    ensures |Kept(raw, n)| == |raw|
    ensures forall i :: 0 <= i < |raw| ==> Kept(raw, n)[i].idx == raw[i].id - 1 && Kept(raw, n)[i].score == raw[i].score
  {
    if raw != [] {
      var m := |raw| - 1;
      CleanRankingIsKept(raw[..m], n);
      assert FirstMention(raw, n, m);
      LastIsKeptIff(raw, n);
    }
  }

  // ---- ensureDescending -----------------------------------------------------------

  ghost predicate Descending(s: seq<Scored>) {
    forall i, j :: 0 <= i < j < |s| ==> s[i].score > s[j].score
  }

  /** Scores as returned when they already fall, else (n - i)/n by position. */
  ghost function Repaired(s: seq<Scored>): seq<Scored> {
    if Descending(s) then s
    else seq(|s|, i requires 0 <= i < |s| => s[i].(score := (|s| - i) as real / |s| as real))
  }

  lemma AdjacentSuffices(s: seq<Scored>, i: nat, j: nat)
    requires forall k :: 1 <= k < |s| ==> s[k].score < s[k - 1].score
    requires i < j < |s|
    ensures s[i].score > s[j].score
    decreases j
  {
    if i < j - 1 { AdjacentSuffices(s, i, j - 1); }
  }

  lemma DivideLess(a: real, b: real, n: real)
    requires a < b && n > 0.0
    ensures a / n < b / n
  {
    assert a / n * n == a && b / n * n == b;
  }

  ghost predicate Falling(s: seq<Scored>) {
    forall i, j :: 0 <= i < j < |s| ==> s[i].score >= s[j].score
  }

  /** Insert after every element scoring at least as much. */
  method InsertStable(s: seq<Scored>, x: Scored) returns (r: seq<Scored>)
    requires Falling(s)
    ensures multiset(r) == multiset(s) + multiset{x} && Falling(r) && |r| == |s| + 1
    ensures (forall i :: 0 <= i < |s| ==> s[i].score >= x.score) ==> r == s + [x]
  {
    var p := |s|;
    while p > 0 && s[p - 1].score < x.score
      invariant 0 <= p <= |s|
      invariant forall i :: p <= i < |s| ==> s[i].score < x.score
    {
      p := p - 1;
    }
    r := s[..p] + [x] + s[p..];
    InsertedFalls(s, p, x);
    InsertedMultiset(s, p, x);
    if p == |s| { assert s[..p] == s && s[p..] == []; }
  }

  lemma InsertedMultiset(s: seq<Scored>, p: nat, x: Scored)
    requires p <= |s|
    ensures multiset(s[..p] + [x] + s[p..]) == multiset(s) + multiset{x}
  {
    assert s == s[..p] + s[p..];
  }

  lemma InsertedFalls(s: seq<Scored>, p: nat, x: Scored)
    requires Falling(s) && p <= |s|
    requires (p > 0 ==> s[p - 1].score >= x.score) && forall i :: p <= i < |s| ==> s[i].score < x.score
    ensures Falling(s[..p] + [x] + s[p..])
  {
    var r := s[..p] + [x] + s[p..];
    assert forall i :: 0 <= i < p ==> r[i] == s[i] && r[i].score >= x.score;
    assert r[p] == x;
    assert forall i :: p < i < |r| ==> r[i] == s[i - 1] && r[i].score < x.score;
  }

  /** sort.SliceStable by descending score. */
  method SortStable(s: seq<Scored>) returns (r: seq<Scored>)
    ensures multiset(r) == multiset(s) && Falling(r)
    ensures Descending(s) ==> r == s
  {
    r := [];
    for k := 0 to |s|
      invariant multiset(r) == multiset(s[..k]) && Falling(r)
      invariant Descending(s) ==> r == s[..k]
    {
      assert s[..k + 1] == s[..k] + [s[k]];
      r := InsertStable(r, s[k]);
    }
    assert s[..|s|] == s;
  }

  method EnsureDescending(scored: seq<Scored>) returns (r: seq<Scored>)
    ensures r == Repaired(scored)
  {
    var s := scored;
    var descending := true;
    var i := 1;
    while i < |s|
      invariant 1 <= i && (|s| > 0 ==> i <= |s|)
      invariant descending <==> forall k :: 1 <= k < i && k < |s| ==> s[k].score < s[k - 1].score
    {
      if s[i].score >= s[i - 1].score {
        descending := false;
        break;
      }
      i := i + 1;
    }
    if descending {
      forall a, b | 0 <= a < b < |s| ensures s[a].score > s[b].score { AdjacentSuffices(s, a, b); }
    } else {
      assert s[i].score >= s[i - 1].score;
      assert !Descending(s);
      var n := |s|;
      for k := 0 to n
        invariant |s| == n
        invariant forall m :: 0 <= m < n ==>
          s[m] == if m < k then scored[m].(score := (n - m) as real / n as real) else scored[m]
      {
        s := s[k := s[k].(score := (n - k) as real / n as real)];
      }
      assert s == Repaired(scored);
      RepairedDescends(scored);
    }
    r := SortStable(s);
  }

  /** Strictly falling scores in the returned order, the ids where they were. */
  lemma RepairedDescends(s: seq<Scored>)
    ensures Descending(Repaired(s)) && |Repaired(s)| == |s|
    ensures forall i :: 0 <= i < |s| ==> Repaired(s)[i].id == s[i].id
  {
    if !Descending(s) {
      var r, n := Repaired(s), |s| as real;
      forall i, j | 0 <= i < j < |r| ensures r[i].score > r[j].score {
        DivideLess((|s| - j) as real, (|s| - i) as real, n);
      }
    }
  }

  // ---- orderMissingLast -----------------------------------------------------------

  function Ids(s: seq<Scored>): seq<ChunkId> {
    seq(|s|, i requires 0 <= i < |s| => s[i].id)
  }

  function FirstOfEach(s: seq<Scored>): seq<Scored> {
    if s == [] then []
    else
      var last, init := s[|s| - 1], FirstOfEach(s[..|s| - 1]);
      if last.id in Ids(init) then init else init + [last]
  }

  function Missing(docs: seq<ChunkId>, have: seq<ChunkId>): seq<Scored> {
    if docs == [] then []
    else
      var last, init := docs[|docs| - 1], Missing(docs[..|docs| - 1], have);
      if last in have then init else init + [Scored(last, 0.0)]
  }

  method OrderMissingLast(docs: seq<ChunkId>, scored: seq<Scored>) returns (out: seq<Scored>)
    ensures out == FirstOfEach(scored) + Missing(docs, Ids(FirstOfEach(scored)))
  {
    var seen: set<ChunkId> := {};
    out := [];
    for k := 0 to |scored|
      invariant out == FirstOfEach(scored[..k])
      invariant forall id :: id in seen <==> id in Ids(out)
    {
      assert scored[..k + 1][..k] == scored[..k];
      if scored[k].id in seen { continue; }
      seen := seen + {scored[k].id};
      ghost var before := out;
      out := out + [scored[k]];
      assert Ids(out) == Ids(before) + [scored[k].id];
    }
    assert scored[..|scored|] == scored;
    ghost var ranked := out;
    for k := 0 to |docs|
      invariant out == ranked + Missing(docs[..k], Ids(ranked))
    {
      assert docs[..k + 1][..k] == docs[..k];
      if docs[k] !in seen { out := out + [Scored(docs[k], 0.0)]; }
    }
    assert docs[..|docs|] == docs;
  }

  /** Score p is the first for its id. */
  ghost predicate FirstScore(s: seq<Scored>, p: nat) {
    p < |s| && forall q :: 0 <= q < p ==> s[q].id != s[p].id
  }

  /** Position p of the scores, as it stands at position i of the output. */
  ghost predicate KeptAt(s: seq<Scored>, out: seq<Scored>, ps: seq<nat>) {
    && |ps| == |out|
    && (forall i, j :: 0 <= i < j < |ps| ==> ps[i] < ps[j])
    && (forall i :: 0 <= i < |ps| ==> ps[i] < |s| && out[i] == s[ps[i]])
    && (forall p: nat :: p in ps <==> FirstScore(s, p))
  }

  /** Duplicate ids: the first wins, and the order stays. */
  lemma {:induction false} FirstWins(s: seq<Scored>) returns (ps: seq<nat>)
    ensures KeptAt(s, FirstOfEach(s), ps)
  {
    if s == [] {
      ps := [];
    } else {
      var m := |s| - 1;
      var init := s[..m];
      var before := FirstWins(init);
      FirstScoreIff(init, FirstOfEach(init), before, s, m);
      ps := before + if FirstScore(s, m) then [m] else [];
      KeptExtends(s, m, FirstOfEach(init), before, FirstOfEach(s), ps);
    }
  }

  lemma FirstScoreIff(init: seq<Scored>, out: seq<Scored>, ps: seq<nat>, s: seq<Scored>, m: nat)
    requires m + 1 == |s| && init == s[..m] && KeptAt(init, out, ps)
    ensures FirstScore(s, m) <==> s[m].id !in Ids(out)
    ensures FirstOfEach(init) == out ==> FirstOfEach(s) == out + if FirstScore(s, m) then [s[m]] else []
  {
    if s[m].id in Ids(out) {
      var i :| 0 <= i < |out| && Ids(out)[i] == s[m].id;
      assert s[ps[i]].id == s[m].id;
    }
    if q :| 0 <= q < m && s[q].id == s[m].id {
      var p := EarliestOf(init, q);
      assert p in ps;
      var i :| 0 <= i < |ps| && ps[i] == p;
      assert Ids(out)[i] == s[m].id;
    }
  }

  lemma EarliestOf(s: seq<Scored>, q: nat) returns (p: nat)
    requires q < |s|
    ensures FirstScore(s, p) && s[p].id == s[q].id
  {
    p := 0;
    while s[p].id != s[q].id
      invariant p <= q && forall r :: 0 <= r < p ==> s[r].id != s[q].id
      decreases q - p
    {
      p := p + 1;
    }
  }

  lemma KeptExtends(s: seq<Scored>, m: nat, out: seq<Scored>, ps: seq<nat>, out': seq<Scored>, ps': seq<nat>)
    requires m + 1 == |s| && KeptAt(s[..m], out, ps)
    requires ps' == ps + if FirstScore(s, m) then [m] else []
    requires out' == out + if FirstScore(s, m) then [s[m]] else []
    ensures KeptAt(s, out', ps')
  {
    forall p: nat | p < m ensures FirstScore(s[..m], p) <==> FirstScore(s, p) {
      assert forall q :: 0 <= q <= p ==> s[..m][q] == s[q];
    }
    forall p: nat ensures p in ps' <==> FirstScore(s, p) {
      assert p in ps ==> FirstScore(s[..m], p);
    }
  }

  lemma {:induction false} DistinctIsKept(s: seq<Scored>)
    requires Distinct(Ids(s))
    ensures FirstOfEach(s) == s
  {
    if s != [] {
      var n := |s| - 1;
      var init := s[..n];
      assert Ids(init) == Ids(s)[..n];
      DistinctIsKept(init);
      LastIsNew(Ids(s));
      assert Ids(s)[n] == s[n].id;
      assert init + [s[n]] == s;
    }
  }

  lemma LastIsNew<T(!new)>(s: seq<T>)
    requires Distinct(s) && s != []
    ensures s[|s| - 1] !in s[..|s| - 1]
  {
  }

  // ---- reorderByScore -------------------------------------------------------------

  function ResultIds(rs: seq<Result>): seq<ChunkId> {
    seq(|rs|, i requires 0 <= i < |rs| => rs[i].id)
  }

  function Find(rs: seq<Result>, id: ChunkId): Option<Result> {
    if rs == [] then None
    else if rs[|rs| - 1].id == id then Some(rs[|rs| - 1])
    else Find(rs[..|rs| - 1], id)
  }

  /** Rows of the head in the ranking's order, each once, rescored. */
  function Ranked(head: seq<Result>, scored: seq<Scored>): seq<Result> {
    if scored == [] then []
    else
      var last, init := scored[|scored| - 1], Ranked(head, scored[..|scored| - 1]);
      match Find(head, last.id)
      case None => init
      case Some(r) => if last.id in ResultIds(init) then init else init + [r.(score := last.score)]
  }

  function Unranked(head: seq<Result>, used: seq<ChunkId>): seq<Result> {
    if head == [] then []
    else
      var last, init := head[|head| - 1], Unranked(head[..|head| - 1], used);
      if last.id in used then init else init + [last]
  }

  lemma {:induction false} FindHasId(rs: seq<Result>, id: ChunkId)
    ensures Find(rs, id).Some? ==> Find(rs, id).value.id == id && Find(rs, id).value in rs
    ensures Find(rs, id).Some? <==> id in ResultIds(rs)
  {
    if rs != [] {
      var n := |rs| - 1;
      FindHasId(rs[..n], id);
      assert ResultIds(rs) == ResultIds(rs[..n]) + [rs[n].id];
    }
  }

  /** Position i of the output is position ps[i] of the head, which the scores do not
      name; all such are listed, in their own order. */
  ghost predicate UnusedAt(head: seq<Result>, used: seq<ChunkId>, out: seq<Result>, ps: seq<nat>) {
    && |ps| == |out|
    && (forall i, j :: 0 <= i < j < |ps| ==> ps[i] < ps[j])
    && (forall i :: 0 <= i < |ps| ==> ps[i] < |head| && out[i] == head[ps[i]])
    && (forall p: nat :: p in ps <==> Unused(head, used, p))
  }

  ghost predicate Unused(head: seq<Result>, used: seq<ChunkId>, p: nat) {
    p < |head| && head[p].id !in used
  }

  lemma UnusedExtends(head: seq<Result>, used: seq<ChunkId>, m: nat, out: seq<Result>, ps: seq<nat>)
    requires m + 1 == |head| && UnusedAt(head[..m], used, out, ps)
    ensures head[m].id in used ==> UnusedAt(head, used, out, ps)
    ensures head[m].id !in used ==> UnusedAt(head, used, out + [head[m]], ps + [m])
  {
    forall p: nat | p < m ensures Unused(head[..m], used, p) <==> Unused(head, used, p) {}
    forall p: nat ensures p in ps ==> p < m { assert p in ps ==> Unused(head[..m], used, p); }
    forall p: nat ensures p in ps + [m] <==> p in ps || p == m {}
  }

  lemma {:induction false} UnrankedInOrder(head: seq<Result>, used: seq<ChunkId>) returns (ps: seq<nat>)
    ensures UnusedAt(head, used, Unranked(head, used), ps)
  {
    if head == [] {
      ps := [];
    } else {
      var m := |head| - 1;
      ps := UnrankedInOrder(head[..m], used);
      UnusedExtends(head, used, m, Unranked(head[..m], used), ps);
      if head[m].id !in used { ps := ps + [m]; }
    }
  }

  method ReorderByScore(results: seq<Result>, scored: seq<Scored>, headN: nat) returns (out: seq<Result>)
    requires headN <= |results|
    ensures var head := results[..headN];
      out == Ranked(head, scored) + Unranked(head, ResultIds(Ranked(head, scored))) + results[headN..]
  {
    ghost var head := results[..headN];
    var byID: map<ChunkId, Result> := map[];
    for k := 0 to headN
      invariant forall id ::
        (id in byID <==> Find(head[..k], id).Some?) && (id in byID ==> byID[id] == Find(head[..k], id).value)
    {
      assert head[..k + 1][..k] == head[..k];
      byID := byID[results[k].id := results[k]];
    }
    assert head[..headN] == head;
    out := [];
    var used: set<ChunkId> := {};
    for k := 0 to |scored|
      invariant out == Ranked(head, scored[..k])
      invariant forall id :: id in used <==> id in ResultIds(out)
    {
      assert scored[..k + 1][..k] == scored[..k];
      var sc := scored[k];
      FindHasId(head, sc.id);
      if sc.id !in byID || sc.id in used { continue; }
      used := used + {sc.id};
      ghost var before := out;
      out := out + [byID[sc.id].(score := sc.score)];
      assert ResultIds(out) == ResultIds(before) + [sc.id];
    }
    assert scored[..|scored|] == scored;
    ghost var ranked := out;
    for k := 0 to headN
      invariant out == ranked + Unranked(head[..k], ResultIds(ranked))
    {
      assert head[..k + 1][..k] == head[..k];
      if results[k].id !in used { out := out + [results[k]]; }
    }
    out := out + results[headN..];
  }

  // ---- The whole chain --------------------------------------------------------------

  /** Positions of the head the ranking left out, in fused order. */
  function Omitted(n: nat, ranked: seq<nat>): seq<nat> {
    if n == 0 then [] else if n - 1 in ranked then Omitted(n - 1, ranked) else Omitted(n - 1, ranked) + [n - 1]
  }

  /** The order the head ends up in. */
  function Order(n: nat, ranked: seq<nat>): seq<nat> { ranked + Omitted(n, ranked) }

  /** `order` lists each position below n exactly once. */
  ghost predicate IsPermutation(order: seq<nat>, n: nat) {
    Distinct(order) && forall i: nat :: i in order <==> i < n
  }

  lemma {:induction false} OmittedMeans(n: nat, ranked: seq<nat>)
    ensures forall i: nat :: i in Omitted(n, ranked) <==> i < n && i !in ranked
    ensures forall a, b :: 0 <= a < b < |Omitted(n, ranked)| ==> Omitted(n, ranked)[a] < Omitted(n, ranked)[b]
  {
    if n > 0 {
      OmittedMeans(n - 1, ranked);
      var init := Omitted(n - 1, ranked);
      forall a | 0 <= a < |init| ensures init[a] < n - 1 { assert init[a] in init; }
    }
  }

  lemma OrderIsPermutation(n: nat, ranked: seq<nat>)
    requires Distinct(ranked) && forall i :: i in ranked ==> i < n
    ensures IsPermutation(Order(n, ranked), n)
  {
    OmittedMeans(n, ranked);
    var om := Omitted(n, ranked);
    forall i, j | 0 <= i < j < |Order(n, ranked)| ensures Order(n, ranked)[i] != Order(n, ranked)[j] {
      if j >= |ranked| {
        assert om[j - |ranked|] in om;
        if i < |ranked| { assert ranked[i] in ranked; }
      }
    }
  }

  /** The scores the reranked head carries: repaired ones, then zeros. */
  ghost function FinalScores(docs: seq<ChunkId>, es: seq<Entry>): seq<Scored>
    requires forall e :: e in es ==> e.idx < |docs|
  {
    Repaired(seq(|es|, i requires 0 <= i < |es| => assert es[i] in es; Scored(docs[es[i].idx], es[i].score)))
  }

  ghost function ScoreAt(s: seq<Scored>, i: nat): real { if i < |s| then s[i].score else 0.0 }

  /** What the caller of the chain gets: the head permuted into `order` with only
      the scores replaced, the tail as it was. */
  ghost predicate Rearranged(results: seq<Result>, n: nat, order: seq<nat>, s: seq<Scored>, out: seq<Result>) {
    && n <= |results| == |out| && |order| == n
    && (forall i :: 0 <= i < n ==> order[i] < n && out[i] == results[order[i]].(score := ScoreAt(s, i)))
    && (forall i :: n <= i < |results| ==> out[i] == results[i])
  }

  /** The reranker: parse, map passages to ids, repair, complete. */
  method RerankDocs(docs: seq<ChunkId>, reply: Option<seq<Raw>>) returns (r: Option<seq<Scored>>)
    ensures r.None? <==> reply.None? || Kept(reply.value, |docs|) == []
    ensures r.Some? ==>
      && (forall e :: e in Kept(reply.value, |docs|) ==> e.idx < |docs|)
      && var s := FinalScores(docs, Kept(reply.value, |docs|));
         r.value == FirstOfEach(s) + Missing(docs, Ids(FirstOfEach(s)))
  {
    if reply.None? { return None; }
    var ranking := ParseRanking(reply.value, |docs|);
    if ranking.None? { return None; }
    var es := ranking.value;
    EntriesInRange(reply.value, |docs|);
    var scored: seq<Scored> := [];
    for k := 0 to |es|
      invariant |scored| == k
      invariant forall i :: 0 <= i < k ==> es[i].idx < |docs| && scored[i] == Scored(docs[es[i].idx], es[i].score)
    {
      assert es[k] in es;
      scored := scored + [Scored(docs[es[k].idx], es[k].score)];
    }
    assert scored == seq(|es|, i requires 0 <= i < |es| => assert es[i] in es; Scored(docs[es[i].idx], es[i].score));
    var repaired := EnsureDescending(scored);
    var complete := OrderMissingLast(docs, repaired);
    return Some(complete);
  }

  lemma EntriesInRange(raw: seq<Raw>, n: nat)
    ensures forall e :: e in Kept(raw, n) ==> e.idx < n
  {
    var es := Kept(raw, n);
    KeptMeans(raw, n);
    forall e | e in es ensures e.idx < n {
      var i :| 0 <= i < |es| && es[i] == e;
      assert Indexes(es)[i] in Indexes(es);
    }
  }

  /** applyRerank: `reply` is what the model's text decoded to, if it did. Any
      failure leaves the fused order untouched. */
  method ApplyRerank(results: seq<Result>, topN: nat, reply: Option<seq<Raw>>) returns (out: seq<Result>)
    requires Distinct(ResultIds(results))
    ensures var n := if topN < |results| then topN else |results|;
      if n == 0 || reply.None? || Kept(reply.value, n) == [] then out == results
      else
        var es, docs := Kept(reply.value, n), ResultIds(results[..n]);
        && (forall e :: e in es ==> e.idx < |docs|)
        && Rearranged(results, n, Order(n, Indexes(es)), FinalScores(docs, es), out)
  {
    var n := if topN < |results| then topN else |results|;
    if n == 0 { return results; }
    var docs := ResultIds(results[..n]);
    var complete := RerankDocs(docs, reply);
    if complete.None? { return results; }
    out := ReorderByScore(results, complete.value, n);
    ghost var es := Kept(reply.value, n);
    KeptMeans(reply.value, n);
    FinalScoresAt(docs, es);
    ChainRearranges(results, n, es, FinalScores(docs, es), complete.value, out);
  }

  lemma FinalScoresAt(docs: seq<ChunkId>, es: seq<Entry>)
    requires forall e :: e in es ==> e.idx < |docs|
    ensures var s := FinalScores(docs, es);
      |s| == |es| && Descending(s) && forall i :: 0 <= i < |es| ==> es[i].idx < |docs| && s[i].id == docs[es[i].idx]
  {
    forall i | 0 <= i < |es| ensures es[i].idx < |docs| { assert es[i] in es; }
    RepairedDescends(seq(|es|, i requires 0 <= i < |es| => assert es[i] in es; Scored(docs[es[i].idx], es[i].score)));
  }

  /** Completion, seen by position: the ranked ids, then the omitted ones at zero. */
  lemma CompleteByPosition(docs: seq<ChunkId>, es: seq<Entry>, s: seq<Scored>)
    requires Distinct(docs) && Distinct(Indexes(es)) && |s| == |es|
    requires forall i :: 0 <= i < |es| ==> es[i].idx < |docs| && s[i].id == docs[es[i].idx]
    ensures var complete := FirstOfEach(s) + Missing(docs, Ids(FirstOfEach(s)));
      var order := Order(|docs|, Indexes(es));
      && |complete| == |order| == |docs|
      && forall i :: 0 <= i < |order| ==> order[i] < |docs| && complete[i] == Scored(docs[order[i]], ScoreAt(s, i))
  {
    forall i, j | 0 <= i < j < |s| ensures Ids(s)[i] != Ids(s)[j] { assert Indexes(es)[i] != Indexes(es)[j]; }
    DistinctIsKept(s);
    forall i | i in Indexes(es) ensures i < |docs| {}
    MissingByPosition(docs, es, s, |docs|);
    assert docs[..|docs|] == docs;
    OmittedMeans(|docs|, Indexes(es));
    OrderIsPermutation(|docs|, Indexes(es));
    PermutationLength(Order(|docs|, Indexes(es)), |docs|);
    var order := Order(|docs|, Indexes(es));
    forall i | 0 <= i < |order| ensures order[i] < |docs| { assert order[i] in order; }
  }

  lemma {:induction false} MissingByPosition(docs: seq<ChunkId>, es: seq<Entry>, s: seq<Scored>, n: nat)
    requires n <= |docs| && Distinct(docs) && |s| == |es|
    requires forall i :: 0 <= i < |es| ==> es[i].idx < |docs| && s[i].id == docs[es[i].idx]
    ensures var m, om := Missing(docs[..n], Ids(s)), Omitted(n, Indexes(es));
      |m| == |om| && forall i :: 0 <= i < |m| ==> om[i] < n && m[i] == Scored(docs[om[i]], 0.0)
  {
    if n > 0 {
      MissingByPosition(docs, es, s, n - 1);
      assert docs[..n][..n - 1] == docs[..n - 1];
      InBoth(docs, es, s, n - 1);
    }
  }

  lemma InBoth(docs: seq<ChunkId>, es: seq<Entry>, s: seq<Scored>, p: nat)
    requires p < |docs| && Distinct(docs) && |s| == |es|
    requires forall i :: 0 <= i < |es| ==> es[i].idx < |docs| && s[i].id == docs[es[i].idx]
    ensures docs[p] in Ids(s) <==> p in Indexes(es)
  {
    if i :| 0 <= i < |es| && Indexes(es)[i] == p { assert Ids(s)[i] == docs[p]; }
    if i :| 0 <= i < |s| && Ids(s)[i] == docs[p] { assert Indexes(es)[i] == p; }
  }

  function DropAt<T>(s: seq<T>, k: nat): seq<T>
    requires k < |s|
  {
    s[..k] + s[k + 1..]
  }

  lemma DropLast(order: seq<nat>, k: nat, n: nat)
    requires IsPermutation(order, n + 1) && k < |order| && order[k] == n
    ensures IsPermutation(DropAt(order, k), n)
  {
    var rest := DropAt(order, k);
    assert forall i :: 0 <= i < |rest| ==> rest[i] == if i < k then order[i] else order[i + 1];
    forall i: nat ensures i in rest <==> i < n {
      if i in order && i != n {
        var j :| 0 <= j < |order| && order[j] == i;
        assert rest[if j < k then j else j - 1] == i;
      }
      if i in rest {
        var j :| 0 <= j < |rest| && rest[j] == i;
        assert order[if j < k then j else j + 1] == i;
      }
    }
  }

  lemma {:induction false} PermutationLength(order: seq<nat>, n: nat)
    requires IsPermutation(order, n)
    ensures |order| == n
    decreases n
  {
    if n == 0 {
      MemberOfNonEmpty(order);
    } else {
      assert n - 1 in order;
      var k :| 0 <= k < |order| && order[k] == n - 1;
      DropLast(order, k, n - 1);
      PermutationLength(DropAt(order, k), n - 1);
    }
  }

  /** A complete list of distinct head ids ranks the whole head, in its order. */
  lemma {:induction false} RankedByPosition(head: seq<Result>, order: seq<nat>, complete: seq<Scored>, m: nat)
    requires Distinct(ResultIds(head)) && Distinct(order) && m <= |order| == |complete|
    requires forall i :: 0 <= i < |order| ==> order[i] < |head| && complete[i].id == head[order[i]].id
    ensures var r := Ranked(head, complete[..m]);
      |r| == m && forall i :: 0 <= i < m ==> r[i] == head[order[i]].(score := complete[i].score)
  {
    if m > 0 {
      RankedByPosition(head, order, complete, m - 1);
      assert complete[..m][..m - 1] == complete[..m - 1];
      var init, last := Ranked(head, complete[..m - 1]), complete[m - 1];
      FindAt(head, order[m - 1]);
      assert last.id !in ResultIds(init) by {
        forall j | 0 <= j < m - 1 ensures ResultIds(init)[j] != last.id {
          assert order[j] != order[m - 1];
          assert ResultIds(head)[order[j]] != ResultIds(head)[order[m - 1]];
        }
      }
    }
  }

  lemma {:induction false} FindAt(rs: seq<Result>, p: nat)
    requires Distinct(ResultIds(rs)) && p < |rs|
    ensures Find(rs, rs[p].id) == Some(rs[p])
    decreases |rs|
  {
    var n := |rs| - 1;
    if p < n {
      assert ResultIds(rs)[p] != ResultIds(rs)[n];
      assert ResultIds(rs[..n]) == ResultIds(rs)[..n];
      FindAt(rs[..n], p);
    }
  }

  lemma {:induction false} NoneUnranked(head: seq<Result>, used: seq<ChunkId>)
    requires forall r :: r in head ==> r.id in used
    ensures Unranked(head, used) == []
  {
    if head != [] {
      assert head[|head| - 1] in head;
      NoneUnranked(head[..|head| - 1], used);
    }
  }

  lemma ChainRearranges(results: seq<Result>, n: nat, es: seq<Entry>, s: seq<Scored>, complete: seq<Scored>,
                        out: seq<Result>)
    requires Distinct(ResultIds(results)) && n <= |results| && Distinct(Indexes(es)) && |s| == |es|
    requires var docs := ResultIds(results[..n]);
      && (forall i :: 0 <= i < |es| ==> es[i].idx < n && s[i].id == docs[es[i].idx])
      && complete == FirstOfEach(s) + Missing(docs, Ids(FirstOfEach(s)))
    requires var head := results[..n];
      out == Ranked(head, complete) + Unranked(head, ResultIds(Ranked(head, complete))) + results[n..]
    ensures Rearranged(results, n, Order(n, Indexes(es)), s, out)
  {
    var head, docs := results[..n], ResultIds(results[..n]);
    assert docs == ResultIds(results)[..n];
    CompleteByPosition(docs, es, s);
    forall i | i in Indexes(es) ensures i < n {}
    OrderIsPermutation(n, Indexes(es));
    HeadRearranges(head, Order(n, Indexes(es)), s, complete);
  }

  lemma HeadRearranges(head: seq<Result>, order: seq<nat>, s: seq<Scored>, complete: seq<Scored>)
    requires Distinct(ResultIds(head)) && IsPermutation(order, |head|) && |complete| == |order| == |head|
    requires forall i :: 0 <= i < |order| ==>
      order[i] < |head| && complete[i] == Scored(ResultIds(head)[order[i]], ScoreAt(s, i))
    ensures var r := Ranked(head, complete);
      && Unranked(head, ResultIds(r)) == [] && |r| == |head|
      && forall i :: 0 <= i < |head| ==> order[i] < |head| && r[i] == head[order[i]].(score := ScoreAt(s, i))
  {
    RankedByPosition(head, order, complete, |head|);
    assert complete[..|head|] == complete;
    AllOfHeadRanked(head, order, Ranked(head, complete));
    NoneUnranked(head, ResultIds(Ranked(head, complete)));
  }

  lemma AllOfHeadRanked(head: seq<Result>, order: seq<nat>, ranked: seq<Result>)
    requires |order| == |ranked| && (forall p :: 0 <= p < |head| ==> p in order)
    requires forall i :: 0 <= i < |order| ==> order[i] < |head| && ranked[i].id == head[order[i]].id
    ensures forall r :: r in head ==> r.id in ResultIds(ranked)
  {
    forall r | r in head ensures r.id in ResultIds(ranked) {
      var p :| 0 <= p < |head| && head[p] == r;
      assert p in order;
      var i :| 0 <= i < |order| && order[i] == p;
      assert ResultIds(ranked)[i] == r.id;
    }
  }

  // ---- What a rearrangement means ---------------------------------------------------

  /** No result is lost, duplicated or altered beyond its score: forgetting scores,
      the output is a permutation of the input. */
  ghost function Bodies(rs: seq<Result>): seq<Result> {
    seq(|rs|, i requires 0 <= i < |rs| => rs[i].(score := 0.0))
  }

  lemma MultisetDropAt<T>(s: seq<T>, k: nat)
    requires k < |s|
    ensures multiset(s) == multiset(DropAt(s, k)) + multiset{s[k]}
  {
    assert s == s[..k] + [s[k]] + s[k + 1..];
  }

  lemma {:induction false} PermutedMultiset(xs: seq<Result>, order: seq<nat>, ys: seq<Result>)
    requires IsPermutation(order, |xs|) && |order| == |xs| == |ys|
    requires forall i :: 0 <= i < |ys| ==> order[i] < |xs| && ys[i] == xs[order[i]]
    ensures multiset(ys) == multiset(xs)
    decreases |xs|
  {
    if xs != [] {
      var n := |xs| - 1;
      assert n in order;
      var k :| 0 <= k < |order| && order[k] == n;
      DropLast(order, k, n);
      MultisetDropAt(ys, k);
      MultisetDropAt(xs, n);
      var rest, order', ys' := DropAt(xs, n), DropAt(order, k), DropAt(ys, k);
      assert rest == xs[..n];
      forall i | 0 <= i < n ensures order'[i] < n && ys'[i] == rest[order'[i]] { assert order'[i] in order'; }
      PermutedMultiset(rest, order', ys');
    }
  }

  lemma RearrangedIsPermutation(results: seq<Result>, n: nat, order: seq<nat>, s: seq<Scored>, out: seq<Result>)
    requires Rearranged(results, n, order, s, out) && IsPermutation(order, n)
    ensures multiset(Bodies(out)) == multiset(Bodies(results))
  {
    PermutedMultiset(Bodies(results[..n]), order, Bodies(out[..n]));
    assert Bodies(out) == Bodies(out[..n]) + Bodies(out[n..]);
    assert Bodies(results) == Bodies(results[..n]) + Bodies(results[n..]);
    assert out[n..] == results[n..];
  }

  /** The chain from a parseable reply: a permutation of the fused results, the
      ranked ones first in the model's order with strictly descending scores, then
      the omitted ones of the head in fused order, then the tail untouched. */
  lemma ChainOrder(results: seq<Result>, n: nat, raw: seq<Raw>, out: seq<Result>)
    requires Distinct(ResultIds(results)) && n <= |results|
    requires forall e :: e in Kept(raw, n) ==> e.idx < n
    requires Rearranged(results, n, Order(n, Indexes(Kept(raw, n))),
                        FinalScores(ResultIds(results[..n]), Kept(raw, n)), out)
    ensures multiset(Bodies(out)) == multiset(Bodies(results))
    ensures var m := |Kept(raw, n)|;
      && m <= n
      && (forall i, j :: 0 <= i < j < m ==> out[i].score > out[j].score)
      && (forall i :: 0 <= i < m ==> out[i].id == results[Kept(raw, n)[i].idx].id)
      && (forall i :: m <= i < n ==> out[i].score == 0.0)
      && (forall i :: n <= i < |results| ==> out[i] == results[i])
  {
    var es := Kept(raw, n);
    KeptMeans(raw, n);
    OrderIsPermutation(n, Indexes(es));
    RearrangedIsPermutation(results, n, Order(n, Indexes(es)), FinalScores(ResultIds(results[..n]), es), out);
    FinalScoresAt(ResultIds(results[..n]), es);
  }

  /** In terms of the reply alone: the i-th result is the passage of the i-th first
      mention, and carries the score given there when those scores fall strictly, else
      (m - i)/m. */
  ghost predicate InReplyOrder(results: seq<Result>, n: nat, raw: seq<Raw>, ps: seq<nat>, out: seq<Result>) {
    && MentionOrder(raw, n, ps) && |ps| <= n <= |results| && |ps| <= |out|
    && (forall i :: 0 <= i < |ps| ==>
          ps[i] < |raw| && 1 <= raw[ps[i]].id <= n && out[i].id == results[raw[ps[i]].id - 1].id)
    && (if forall i, j :: 0 <= i < j < |ps| ==> ps[i] < |raw| && ps[j] < |raw| && raw[ps[i]].score > raw[ps[j]].score
        then forall i :: 0 <= i < |ps| ==> ps[i] < |raw| && out[i].score == raw[ps[i]].score
        else forall i :: 0 <= i < |ps| ==> out[i].score == (|ps| - i) as real / |ps| as real)
  }

  /** The same chain, against the reply's own positions. */
  lemma ChainFollowsReply(results: seq<Result>, n: nat, raw: seq<Raw>, out: seq<Result>)
    requires Distinct(ResultIds(results)) && n <= |results|
    requires forall e :: e in Kept(raw, n) ==> e.idx < n
    requires Rearranged(results, n, Order(n, Indexes(Kept(raw, n))),
                        FinalScores(ResultIds(results[..n]), Kept(raw, n)), out)
    ensures InReplyOrder(results, n, raw, Mentions(raw, n), out)
  {
    var es := Kept(raw, n);
    var s := FinalScores(ResultIds(results[..n]), es);
    ChainOrder(results, n, raw, out);
    KeptInOrder(raw, n);
    ScoresInOrder(ResultIds(results[..n]), es);
    assert forall i :: 0 <= i < |es| ==> out[i].score == s[i].score;
    RepliesFollowed(results, n, raw, Mentions(raw, n), es, s, out);
  }

  ghost predicate EntriesFall(es: seq<Entry>) {
    forall i, j :: 0 <= i < j < |es| ==> es[i].score > es[j].score
  }

  ghost predicate ScoresRepaired(es: seq<Entry>, s: seq<Scored>) {
    && |s| == |es|
    && (if EntriesFall(es) then forall i :: 0 <= i < |es| ==> s[i].score == es[i].score
        else forall i :: 0 <= i < |es| ==> s[i].score == (|es| - i) as real / |es| as real)
  }

  lemma FallsInReply(raw: seq<Raw>, ps: seq<nat>, es: seq<Entry>)
    requires KeepsMentions(raw, ps, es)
    ensures EntriesFall(es) <==>
      forall i, j :: 0 <= i < j < |ps| ==> ps[i] < |raw| && ps[j] < |raw| && raw[ps[i]].score > raw[ps[j]].score
  {
    if !EntriesFall(es) {
      var i, j :| 0 <= i < j < |es| && es[i].score <= es[j].score;
      assert raw[ps[i]].score <= raw[ps[j]].score;
    }
  }

  lemma RepliesFollowed(results: seq<Result>, n: nat, raw: seq<Raw>, ps: seq<nat>, es: seq<Entry>, s: seq<Scored>,
                        out: seq<Result>)
    requires MentionOrder(raw, n, ps) && KeepsMentions(raw, ps, es) && |es| <= n <= |results| == |out| && |s| == |es|
    requires forall i :: 0 <= i < |es| ==>
      es[i].idx < n && out[i].id == results[es[i].idx].id && out[i].score == s[i].score
    requires ScoresRepaired(es, s)
    ensures InReplyOrder(results, n, raw, ps, out)
  {
    forall i | 0 <= i < |ps| ensures ps[i] < |raw| && 1 <= raw[ps[i]].id <= n {
      assert FirstMention(raw, n, ps[i]) by { assert ps[i] in ps; }
    }
    FallsInReply(raw, ps, es);
  }

  lemma ScoresInOrder(docs: seq<ChunkId>, es: seq<Entry>)
    requires forall e :: e in es ==> e.idx < |docs|
    ensures ScoresRepaired(es, FinalScores(docs, es))
  {
    forall i | 0 <= i < |es| ensures es[i].idx < |docs| { assert es[i] in es; }
    var raw := seq(|es|, i requires 0 <= i < |es| => assert es[i] in es; Scored(docs[es[i].idx], es[i].score));
    assert forall i :: 0 <= i < |es| ==> raw[i].score == es[i].score;
    if EntriesFall(es) {
      assert Descending(raw);
    } else {
      var i, j :| 0 <= i < j < |es| && es[i].score <= es[j].score;
      assert raw[i].score <= raw[j].score;
    }
  }

  /** The head as a whole falls in score exactly when nothing was omitted or no
      ranked score is negative: the zero given to an omitted result ranks above a
      negative one placed before it. */
  lemma HeadFallsIff(s: seq<Scored>, n: nat)
    requires Descending(s) && |s| <= n
    ensures (forall i, j :: 0 <= i < j < n ==> ScoreAt(s, i) >= ScoreAt(s, j))
       <==> |s| == n || (forall i :: 0 <= i < |s| ==> s[i].score >= 0.0)
  {
    if |s| < n && forall i, j :: 0 <= i < j < n ==> ScoreAt(s, i) >= ScoreAt(s, j) {
      forall i | 0 <= i < |s| ensures s[i].score >= 0.0 { assert ScoreAt(s, i) >= ScoreAt(s, n - 1); }
    }
  }
}
