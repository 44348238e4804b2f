/** The hybrid retrieval query: its liveness filter against the live_chunks
    view, and reciprocal rank fusion of its two rankings. */
module Hybrid {
  import opened Basics
  import opened Rows
  import opened StoreSteps
  import opened Like

  // ---- Candidates -------------------------------------------------------------

  /** Unset filters pass every row. `tags` stands for the containment test. */
  datatype Filters = Filters(
    sources: set<SourceId>, uriPrefix: string,
    from: Option<Time>, to: Option<Time>, tags: Option<string -> bool>)

  /** The uri bind: no prefix binds null, else the LIKE pattern. */
  ghost function UriPattern(f: Filters): Option<string> {
    if f.uriPrefix == "" then None else Some(Escaped(f.uriPrefix) + "%")
  }

  /** The document-level filters as the query states them; a null uri is not
      like any pattern. */
  ghost predicate DocFilter(f: Filters, d: Doc) {
    && (UriPattern(f).None? || (d.attrs.uri.Some? && Matches(UriPattern(f).value, d.attrs.uri.value)))
    && (f.tags.None? || f.tags.value(d.attrs.metadata))
  }

  /** The same filters as a caller means them. */
  ghost predicate DocWanted(f: Filters, d: Doc) {
    && (f.uriPrefix == "" || (d.attrs.uri.Some? && f.uriPrefix <= d.attrs.uri.value))
    && (f.tags.None? || f.tags.value(d.attrs.metadata))
  }

  ghost predicate ChunkFilter(f: Filters, c: Chunk) {
    && (f.sources == {} || c.source in f.sources)
    && (f.from.None? || c.createdAt >= f.from.value)
    && (f.to.None? || c.createdAt <= f.to.value)
  }

  /** A caller means: one of the sources, if any are named, and created neither before
      `from` nor after `to`. */
  ghost predicate ChunkWanted(f: Filters, c: Chunk) {
    && (f.sources != {} ==> c.source in f.sources)
    && (f.from.Some? ==> !(c.createdAt < f.from.value))
    && (f.to.Some? ==> !(c.createdAt > f.to.value))
  }

  /** select d.current_version from documents d where active and filtered */
  ghost predicate LiveVersion(db: Db, f: Filters, v: VersionId) {
    exists d :: d in db.docs && db.docs[d].status == Active && DocFilter(f, db.docs[d]) && db.docs[d].current == Some(v)
  }

  /** What the query scans: chunks by version_id semi-join, never joining the
      chunk's own document. */
  ghost function SemiJoin(db: Db, f: Filters): set<ChunkKey> {
    set k | k in db.chunks && LiveVersion(db, f, k.version) && ChunkFilter(f, db.chunks[k])
  }

  /** What it stands for: live_chunks rows whose own document passes. */
  ghost function FilteredView(db: Db, f: Filters): set<ChunkKey> {
    set k | k in db.chunks && InLiveView(db, k)
         && DocWanted(f, db.docs[db.chunks[k].doc]) && ChunkWanted(f, db.chunks[k])
  }

  lemma FilterMeansWanted(f: Filters, d: Doc)
    ensures DocFilter(f, d) <==> DocWanted(f, d)
  {
    if f.uriPrefix != "" && d.attrs.uri.Some? { PrefixPattern(f.uriPrefix, d.attrs.uri.value); }
  }

  /** The view's rows are always among those scanned. */
  lemma ViewIsScanned(db: Db, f: Filters)
    ensures FilteredView(db, f) <= SemiJoin(db, f)
  {
    forall k | k in FilteredView(db, f) ensures k in SemiJoin(db, f) {
      FilterMeansWanted(f, db.docs[db.chunks[k].doc]);
    }
  }

  /** In every state that satisfies the store's invariant, the semi-join selects
      exactly the rows of the filtered view, a uri filter meaning literal prefix. */
  lemma SemiJoinIsView(db: Db, f: Filters)
    requires Inv(db)
    ensures SemiJoin(db, f) == FilteredView(db, f)
  {
    ViewIsScanned(db, f);
    forall k | k in SemiJoin(db, f) ensures k in FilteredView(db, f) {
      var d :| && d in db.docs && db.docs[d].status == Active
               && DocFilter(f, db.docs[d]) && db.docs[d].current == Some(k.version);
      assert OwnsCurrent(db, d) && ChunkSound(db, k);
      FilterMeansWanted(f, db.docs[d]);
    }
  }

  lemma SemiJoinIsViewOnEveryRun(steps: seq<Step>, f: Filters)
    requires Runs(EmptyDb, steps)
    ensures SemiJoin(After(EmptyDb, steps), f) == FilteredView(After(EmptyDb, steps), f)
  {
    RunKeepsInv(EmptyDb, steps);
    SemiJoinIsView(After(EmptyDb, steps), f);
  }

  /** The invariant is what makes it so: a chunk filed under another document's
      version is scanned but not in the view. */
  lemma ForeignChunkIsScanned() returns (db: Db, f: Filters)
    ensures SemiJoin(db, f) != FilteredView(db, f) && KeysUnique(db) && VersionsSound(db)
    ensures CurrentSound(db) && DeletedStamped(db)
  {
    var attrs := Attrs(None, None, None, "{}");
    var a := Doc(Key(0, "a"), attrs, Active, Some(1), 0, 0, None);
    var b := Doc(Key(0, "b"), attrs, Active, Some(2), 0, 0, None);
    var k := ChunkKey(1, 0);
    var c := Chunk(2, 0, ChunkBody([], "", 0, [], "", None, "{}"), 0);
    var versions := map[1 := Version(1, [], "", 0), 2 := Version(2, [], "", 0)];
    db := Db(map[1 := a, 2 := b], versions, map[k := c], map[], map[]);
    f := Filters({}, "", None, None, None);
    assert db.docs[1].status == Active && DocFilter(f, db.docs[1]) && db.docs[1].current == Some(k.version);
    assert k in SemiJoin(db, f) && k !in FilteredView(db, f);
  }

  // ---- Fusion -----------------------------------------------------------------

  const RrfK: nat := 60

  /** One retriever's list: the best `limit` candidates under `cost`, each once. */
  ghost predicate IsRanking(cands: set<ChunkKey>, cost: ChunkKey -> real, limit: nat, list: seq<ChunkKey>) {
    && Distinct(list) && |list| <= limit
    && (forall i :: 0 <= i < |list| ==> list[i] in cands)
    && (forall i, j :: 0 <= i < j < |list| ==> cost(list[i]) <= cost(list[j]))
    && (forall k, i :: k in cands && k !in list && 0 <= i < |list| ==> cost(list[i]) <= cost(k))
    && (|list| < limit ==> forall k :: k in cands ==> k in list)
  }

  /** 1-based rank in a list that contains it. */
  ghost function Rank(list: seq<ChunkKey>, k: ChunkKey): (r: nat)
    requires k in list
    ensures 1 <= r <= |list| && list[r - 1] == k
  {
    var i :| 0 <= i < |list| && list[i] == k;
    i + 1
  }

  ghost function Ranks(list: seq<ChunkKey>, k: ChunkKey): seq<nat> {
    if k in list then [Rank(list, k)] else []
  }

  function Share(r: nat): real { 1.0 / (RrfK + r) as real }

  function RrfSum(ranks: seq<nat>): real {
    if ranks == [] then 0.0 else RrfSum(ranks[..|ranks| - 1]) + Share(ranks[|ranks| - 1])
  }

  method RRFScore(ranks: seq<nat>) returns (s: real)
    ensures s == RrfSum(ranks)
  {
    s := 0.0;
    for i := 0 to |ranks|
      invariant s == RrfSum(ranks[..i])
    {
      assert ranks[..i + 1][..i] == ranks[..i];
      s := s + 1.0 / (RrfK as real + ranks[i] as real);
    }
    assert ranks[..|ranks|] == ranks;
  }

  /** One row of `select * from v union all select * from t`. */
  datatype Ranked = Ranked(id: ChunkKey, r: nat)

  ghost function Numbered(list: seq<ChunkKey>): seq<Ranked> {
    seq(|list|, i requires 0 <= i < |list| => Ranked(list[i], i + 1))
  }

  /** sum(1.0/(60 + r)) over the group of one id. */
  ghost function GroupSum(rows: seq<Ranked>, id: ChunkKey): real {
    if rows == [] then 0.0
    else
      var last := rows[|rows| - 1];
      GroupSum(rows[..|rows| - 1], id) + (if last.id == id then Share(last.r) else 0.0)
  }

  ghost function Fused(v: seq<ChunkKey>, t: seq<ChunkKey>, id: ChunkKey): real {
    GroupSum(Numbered(v) + Numbered(t), id)
  }

  lemma {:induction false} GroupSumAppend(a: seq<Ranked>, b: seq<Ranked>, id: ChunkKey)
    ensures GroupSum(a + b, id) == GroupSum(a, id) + GroupSum(b, id)
  {
    if b == [] {
      assert a + b == a;
    } else {
      var n := |b| - 1;
      assert (a + b)[..|a + b| - 1] == a + b[..n];
      GroupSumAppend(a, b[..n], id);
    }
  }

  lemma {:induction false} GroupSumOfList(list: seq<ChunkKey>, id: ChunkKey)
    requires Distinct(list)
    ensures GroupSum(Numbered(list), id) == RrfSum(Ranks(list, id))
  {
    if list == [] {
      assert id !in list;
    } else {
      var n := |list| - 1;
      var init := list[..n];
      assert Numbered(list)[..n] == Numbered(init);
      GroupSumOfList(init, id);
      if list[n] == id {
        assert id !in init;
        assert Rank(list, id) == n + 1;
        assert [n + 1][..0] == [];
      } else if id in list {
        assert id in init;
        var r := Rank(list, id);
        assert init[r - 1] == id && Rank(init, id) == r;
      } else {
        assert id !in init;
      }
    }
  }

  /** The grouped union score is the RRF score of the chunk's ranks. */
  lemma FusedIsRrf(v: seq<ChunkKey>, t: seq<ChunkKey>, id: ChunkKey)
    requires Distinct(v) && Distinct(t)
    ensures Fused(v, t, id) == RrfSum(Ranks(v, id) + Ranks(t, id))
  {
    GroupSumAppend(Numbered(v), Numbered(t), id);
    GroupSumOfList(v, id);
    GroupSumOfList(t, id);
    var a, b := Ranks(v, id), Ranks(t, id);
    if |a| == 1 && |b| == 1 { assert (a + b)[..1] == a; assert a[..0] == [] && b[..0] == []; }
    else if |a| == 1 { assert a + b == a; }
    else { assert a + b == b; }
  }

  lemma FusedBoth(v: seq<ChunkKey>, t: seq<ChunkKey>, id: ChunkKey)
    requires Distinct(v) && Distinct(t) && id in v && id in t
    ensures Fused(v, t, id) == Share(Rank(v, id)) + Share(Rank(t, id))
  {
    FusedIsRrf(v, t, id);
    var i, j := Rank(v, id), Rank(t, id);
    assert [i, j][..1] == [i] && [i][..0] == [];
    assert RrfSum([i]) == Share(i);
    assert Ranks(v, id) + Ranks(t, id) == [i, j];
  }

  lemma FusedOne(v: seq<ChunkKey>, t: seq<ChunkKey>, id: ChunkKey)
    requires Distinct(v) && Distinct(t) && (id in v) != (id in t)
    ensures Fused(v, t, id) == Share(if id in v then Rank(v, id) else Rank(t, id))
  {
    FusedIsRrf(v, t, id);
    var i := if id in v then Rank(v, id) else Rank(t, id);
    assert [i][..0] == [];
    assert Ranks(v, id) + Ranks(t, id) == [i];
  }

  lemma ShareFalls(r: nat, s: nat)
    requires r <= s
    ensures Share(s) <= Share(r)
  {
    DivideMonotone((RrfK + r) as real, (RrfK + s) as real);
  }

  lemma DivideMonotone(x: real, y: real)
    requires 0.0 < x <= y
    ensures 1.0 / y <= 1.0 / x
  {
    assert 1.0 / y <= 1.0 / x <==> 1.0 / y * y <= 1.0 / x * y;
    assert 1.0 / x * x == 1.0;
  }

  /** Every chunk found by both retrievers outscores every chunk found by one. */
  ghost predicate BothFirst(v: seq<ChunkKey>, t: seq<ChunkKey>) {
    forall b, o :: b in v && b in t && (o in v) != (o in t) ==> Fused(v, t, b) > Fused(v, t, o)
  }

  ghost predicate Outweighs(kv: nat, kt: nat) {
    Share(kv) + Share(kt) > Share(1)
  }

  lemma BothFirstWithin(v: seq<ChunkKey>, t: seq<ChunkKey>, kv: nat, kt: nat)
    requires Distinct(v) && Distinct(t) && |v| <= kv && |t| <= kt && Outweighs(kv, kt)
    ensures BothFirst(v, t)
  {
    forall b, o | b in v && b in t && (o in v) != (o in t) ensures Fused(v, t, b) > Fused(v, t, o) {
      FusedBoth(v, t, b);
      FusedOne(v, t, o);
      ShareFalls(Rank(v, b), kv);
      ShareFalls(Rank(t, b), kt);
      ShareFalls(1, if o in v then Rank(v, o) else Rank(t, o));
    }
  }

  /** A pair of rankings whose only common chunk is last in both. */
  ghost function Column(tag: nat, n: nat): seq<ChunkKey> {
    seq(n, i requires 0 <= i < n => if i == n - 1 then ChunkKey(2, 0) else ChunkKey(tag, i))
  }

  lemma ColumnDistinct(tag: nat, n: nat)
    requires tag < 2
    ensures Distinct(Column(tag, n))
  {
  }

  /** For any two limits, no pair of rankings within them lets a single-list
      chunk tie or beat a both-list one exactly when the two last ranks
      together outweigh one first rank. */
  lemma BothFirstIff(kv: nat, kt: nat)
    requires kv >= 1 && kt >= 1
    ensures Outweighs(kv, kt) <==>
      forall v, t :: Distinct(v) && Distinct(t) && |v| <= kv && |t| <= kt ==> BothFirst(v, t)
  {
    if Outweighs(kv, kt) {
      forall v, t | Distinct(v) && Distinct(t) && |v| <= kv && |t| <= kt ensures BothFirst(v, t) {
        BothFirstWithin(v, t, kv, kt);
      }
    } else {
      var v, t := Column(0, kv), Column(1, kt);
      ColumnDistinct(0, kv);
      ColumnDistinct(1, kt);
      var b, o := ChunkKey(2, 0), ChunkKey(0, 0);
      NotOutweighedIsLong(kv, kt);
      assert v[kv - 1] == b && t[kt - 1] == b && v[0] == o;
      assert Rank(v, b) == kv && Rank(t, b) == kt && Rank(v, o) == 1;
      assert o !in t;
      FusedBoth(v, t, b);
      FusedOne(v, t, o);
      assert !BothFirst(v, t);
    }
  }

  lemma NotOutweighedIsLong(kv: nat, kt: nat)
    requires !Outweighs(kv, kt)
    ensures kv >= 2
  {
    assert Share(kt) > 0.0;
    if kv <= 1 { ShareFalls(kv, 1); }
  }

  /** With one limit for both lists, 61 is the largest that works. */
  lemma SixtyOneIsTight(k: nat)
    ensures Outweighs(k, k) <==> k <= 61
  {
    var x := (RrfK + k) as real;
    assert 1.0 / x * x == 1.0;
    assert Share(k) + Share(k) > 1.0 / 61.0 <==> (1.0 / x + 1.0 / x) * x > 1.0 / 61.0 * x;
    assert (1.0 / x + 1.0 / x) * x == 2.0;
    assert 2.0 > 1.0 / 61.0 * x <==> 122.0 > x;
  }

  // ---- Truncation -------------------------------------------------------------

  /** order by score desc limit k */
  ghost predicate IsTop(ids: set<ChunkKey>, score: ChunkKey -> real, k: nat, out: seq<ChunkKey>) {
    && Distinct(out) && |out| <= k
    && (forall i :: 0 <= i < |out| ==> out[i] in ids)
    && (forall i, j :: 0 <= i < j < |out| ==> score(out[i]) >= score(out[j]))
    && (forall i, x :: 0 <= i < |out| && x in ids && x !in out ==> score(out[i]) >= score(x))
    && (|out| < k ==> forall x :: x in ids ==> x in out)
  }

  /** The fused result at limits that outweigh one first rank, as any up to 61 do
      (the default is 40): every returned row is a live row passing the filters, both-list chunks come first, and no
      single-list chunk is returned while a both-list one is cut. */
  lemma RetrieveIsLiveAndBothFirst(db: Db, f: Filters, distance: ChunkKey -> real, textCost: ChunkKey -> real,
                                   hits: set<ChunkKey>, kv: nat, kt: nat, k: nat,
                                   v: seq<ChunkKey>, t: seq<ChunkKey>, out: seq<ChunkKey>)
    requires Inv(db) && Outweighs(kv, kt)
    requires IsRanking(SemiJoin(db, f), distance, kv, v)
    requires IsRanking(SemiJoin(db, f) * hits, textCost, kt, t)
    requires IsTop((set id | id in v) + (set id | id in t), id => Fused(v, t, id), k, out)
    ensures forall id :: id in out ==> id in FilteredView(db, f)
    ensures forall i, j :: 0 <= i < |out| && 0 <= j < |out| ==>
      out[i] in v && out[i] in t && (out[j] in v) != (out[j] in t) ==> i < j
    ensures forall b, o :: b in v && b in t && o in out && (o in v) != (o in t) ==> b in out
  {
    SemiJoinIsView(db, f);
    BothFirstWithin(v, t, kv, kt);
  }
}
