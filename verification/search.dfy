/** A search: over-fetch for the reranker, rerank the head, truncate. */
module Search {
  import opened Basics
  import opened Rerank

  const DefaultK: nat := 8
  const DefaultMaxTopK: nat := 100
  const DefaultTopN: nat := 20

  /** The tenant's settings and the request, as far as sizes go. `topN` is absent
      when no reranker could be built. */
  datatype Sizes = Sizes(requested: int, settingsK: int, ceiling: int, topN: Option<int>)

  function Ceiling(z: Sizes): int { if z.ceiling <= 0 then DefaultMaxTopK else z.ceiling }

  /** finalK: nothing here makes the result positive. */
  function FinalK(z: Sizes): (k: int)
    ensures z.requested > 0 ==> 0 < k <= z.requested
    ensures z.requested <= 0 ==> k <= z.settingsK && (k > 0 <==> z.settingsK > 0)
    ensures k <= Ceiling(z) && (0 < z.requested <= Ceiling(z) ==> k == z.requested)
    ensures z.requested <= 0 && z.settingsK <= Ceiling(z) ==> k == z.settingsK
    ensures z.requested > Ceiling(z) || (z.requested <= 0 && z.settingsK > Ceiling(z)) ==> k == Ceiling(z)
    ensures Ceiling(z) == if z.ceiling > 0 then z.ceiling else 100
  {
    var k := if z.requested > 0 then z.requested else z.settingsK;
    if k > Ceiling(z) then Ceiling(z) else k
  }

  function TopN(z: Sizes): nat
    requires z.topN.Some?
  {
    if z.topN.value <= 0 then DefaultTopN else z.topN.value
  }

  function FetchK(z: Sizes): int {
    if z.topN.Some? && TopN(z) > FinalK(z) then TopN(z) else FinalK(z)
  }

  /** The fused query at each limit: no more rows than asked for, no chunk twice,
      and a smaller limit cuts the same list shorter. */
  ghost predicate IsFused(fused: nat -> seq<Result>) {
    forall k: nat :: |fused(k)| <= k && Distinct(ResultIds(fused(k))) && Prefixes(fused, k)
  }

  ghost predicate Prefixes(fused: nat -> seq<Result>, k: nat) {
    forall j: nat :: j <= k ==> fused(j) == Cut(fused(k), j)
  }

  function Cut(s: seq<Result>, k: nat): seq<Result> { if k <= |s| then s[..k] else s }

  /** Retrieve takes a limit that is not positive as its default. */
  function Limit(k: int): nat { if k <= 0 then DefaultK else k }

  ghost predicate Unusable(reply: Option<seq<Raw>>, n: nat) {
    reply.None? || Kept(reply.value, n) == []
  }

  ghost function HeadSize(topN: nat, results: seq<Result>): nat {
    if topN < |results| then topN else |results|
  }

  /** Search past the embedding call. No result stands for the slice bound panic. */
  method Search(fused: nat -> seq<Result>, z: Sizes, reply: Option<seq<Raw>>) returns (r: Option<seq<Result>>)
    requires IsFused(fused)
    ensures r.None? <==> z.requested <= 0 && z.settingsK < 0
    ensures r.Some? ==> exists full {:trigger Reordered(fused(Limit(FetchK(z))), z, reply, full)} ::
      Reordered(fused(Limit(FetchK(z))), z, reply, full) && r.value == Cut(full, FinalK(z))
  {
    var results := fused(Limit(FetchK(z)));
    assert Prefixes(fused, Limit(FetchK(z)));
    if reply.Some? { NothingToRank(reply.value); }
    if z.topN.Some? { results := ApplyRerank(results, TopN(z), reply); }
    ghost var full := results;
    assert Reordered(fused(Limit(FetchK(z))), z, reply, full);
    if |results| > FinalK(z) {
      if FinalK(z) < 0 { return None; }
      results := results[..FinalK(z)];
    }
    return Some(results);
  }

  lemma {:induction false} NothingToRank(raw: seq<Raw>)
    ensures Kept(raw, 0) == []
  {
    if raw != [] { NothingToRank(raw[..|raw| - 1]); }
  }

  /** What the reranking stage makes of the fetched list. */
  ghost predicate Reordered(fetched: seq<Result>, z: Sizes, reply: Option<seq<Raw>>, full: seq<Result>) {
    if z.topN.None? || Unusable(reply, HeadSize(TopN(z), fetched)) then full == fetched
    else
      var n := HeadSize(TopN(z), fetched);
      var es, docs := Kept(reply.value, n), ResultIds(fetched[..n]);
      && (forall e :: e in es ==> e.idx < |docs|)
      && n > 0 && Rearranged(fetched, n, Order(n, Indexes(es)), FinalScores(docs, es), full)
  }

  /** The reranker is handed the whole of the best top_n matches, twenty when the
      setting is unset, even where fewer results are asked for; and when more are asked
      for, those are fetched too. */
  lemma RerankerSees(fused: nat -> seq<Result>, z: Sizes)
    requires IsFused(fused) && z.topN.Some? && FinalK(z) > 0
    ensures var top: nat := if z.topN.value > 0 then z.topN.value else 20;
      var fetched := fused(Limit(FetchK(z)));
      && fetched == fused(if top > FinalK(z) then top else FinalK(z))
      && fetched[..HeadSize(TopN(z), fetched)] == fused(top)
  {
    assert Prefixes(fused, Limit(FetchK(z)));
  }

  /** When reranking is off or fails, over-fetching leaves no trace: the answer is
      what the query alone gives at the final size. */
  lemma FallbackIsPlain(fused: nat -> seq<Result>, z: Sizes, reply: Option<seq<Raw>>, full: seq<Result>)
    requires IsFused(fused) && FinalK(z) > 0 && Reordered(fused(Limit(FetchK(z))), z, reply, full)
    requires z.topN.None? || Unusable(reply, HeadSize(TopN(z), fused(Limit(FetchK(z)))))
    ensures Cut(full, FinalK(z)) == fused(FinalK(z))
  {
    assert Prefixes(fused, Limit(FetchK(z)));
  }

  /** With a usable ranking every answer is one of the fetched results under a new
      score, none twice, and what the model ranked comes first in its order. */
  lemma AnswerIsFromFetched(fused: nat -> seq<Result>, z: Sizes, reply: Option<seq<Raw>>, full: seq<Result>)
    requires IsFused(fused) && FinalK(z) > 0 && Reordered(fused(Limit(FetchK(z))), z, reply, full)
    ensures var fetched, out := fused(Limit(FetchK(z))), Cut(full, FinalK(z));
      && |out| == |fused(FinalK(z))|
      && multiset(Bodies(full)) == multiset(Bodies(fetched))
      && out == full[..|out|]
      && (z.topN.Some? && !Unusable(reply, HeadSize(TopN(z), fetched)) ==>
            var n := HeadSize(TopN(z), fetched);
            InReplyOrder(fetched, n, reply.value, Mentions(reply.value, n), full))
  {
    var fetched := fused(Limit(FetchK(z)));
    assert Prefixes(fused, Limit(FetchK(z)));
    if z.topN.Some? && !Unusable(reply, HeadSize(TopN(z), fetched)) {
      var n := HeadSize(TopN(z), fetched);
      ChainOrder(fetched, n, reply.value, full);
      ChainFollowsReply(fetched, n, reply.value, full);
    }
  }

  /** A search over a corpus with any match at all comes back with something exactly
      when a size was given: with top_k and final_k both unset the query's default
      of eight rows is fetched and then cut to none. */
  lemma AnswersIff(fused: nat -> seq<Result>, z: Sizes, reply: Option<seq<Raw>>, full: seq<Result>)
    requires IsFused(fused) && fused(1) != [] && FinalK(z) >= 0 && Reordered(fused(Limit(FetchK(z))), z, reply, full)
    ensures Cut(full, FinalK(z)) != [] <==> z.requested > 0 || z.settingsK > 0
  {
    var fetched := fused(Limit(FetchK(z)));
    assert Prefixes(fused, Limit(FetchK(z)));
    assert fused(1) == Cut(fetched, 1);
    assert |full| == |fetched|;
  }

  /** For instance: one chunk matches, neither size is set, nothing comes back. */
  lemma UnsetSizesFindNothing(hit: Result) returns (fused: nat -> seq<Result>, z: Sizes)
    ensures z.requested == 0 && z.settingsK == 0 && IsFused(fused) && fused(1) == [hit]
    ensures forall reply, full :: Reordered(fused(Limit(FetchK(z))), z, reply, full) ==>
      full == [hit] && Cut(full, FinalK(z)) == []
  {
    z := Sizes(0, 0, 0, None);
    fused := k => if k == 0 then [] else [hit];
    assert forall k: nat :: Prefixes(fused, k);
  }
}
