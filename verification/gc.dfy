/** The retention sweep: what one complete CollectGarbage removes, and why it
    is invisible to readers, exhaustive, exactly counted and idempotent. */
module Retention {
  import opened Basics
  import opened Rows
  import opened StoreSteps

  const Day: Time := 24 * 3600 * 1_000_000_000

  datatype Policy = Policy(
    versionRetention: Time, deletedDocRetention: Time, queryLogRetention: Time,
    crawlPageStale: Time, batchSize: int)

  /** A window as set, or that many days. */
  ghost function Window(set': Time, days: nat): Time {
    if set' > 0 then set' else days * 86_400_000_000_000
  }

  /** Unset or negative windows take the documented days; an unset crawl window
      stays unset, which skips that class. */
  function WithDefaults(p: Policy): (q: Policy)
    ensures q.versionRetention == Window(p.versionRetention, 30)
    ensures q.deletedDocRetention == Window(p.deletedDocRetention, 30)
    ensures q.queryLogRetention == Window(p.queryLogRetention, 90)
    ensures q.crawlPageStale == p.crawlPageStale
    ensures q.batchSize == if p.batchSize > 0 then p.batchSize else 1000
  {
    Policy(
      if p.versionRetention <= 0 then 30 * Day else p.versionRetention,
      if p.deletedDocRetention <= 0 then 30 * Day else p.deletedDocRetention,
      if p.queryLogRetention <= 0 then 90 * Day else p.queryLogRetention,
      p.crawlPageStale,
      if p.batchSize <= 0 then 1000 else p.batchSize)
  }

  /** All cutoffs of one sweep, measured back from one instant. */
  datatype Cutoffs = Cutoffs(versions: Time, docs: Time, logs: Time, now: Time, window: Time)

  function CutoffsOf(p: Policy, now: Time): Cutoffs {
    Cutoffs(now - p.versionRetention, now - p.deletedDocRetention, now - p.queryLogRetention, now, p.crawlPageStale)
  }

  datatype Metrics = Metrics(oldVersions: nat, deletedDocs: nat, queryLogs: nat, crawlPages: nat, chunks: nat)

  // ---- One batch -----------------------------------------------------------

  /** `order by at limit n`: the oldest n of the eligible rows, ties broken anyhow. */
  ghost predicate IsBatch<K(!new)>(eligible: set<K>, at: map<K, Time>, limit: nat, victims: set<K>)
    requires forall k :: k in eligible ==> k in at
  {
    && victims <= eligible
    && |victims| == Min(limit, |eligible|)
    && forall v, u :: v in victims && u in eligible && u !in victims ==> at[v] <= at[u]
  }

  /** A batch that comes back short has exhausted its class. */
  lemma ShortBatchIsAll<K(!new)>(eligible: set<K>, at: map<K, Time>, limit: nat, victims: set<K>)
    requires forall k :: k in eligible ==> k in at
    requires IsBatch(eligible, at, limit, victims) && |victims| < limit
    ensures victims == eligible
  {
    SubsetOfSameSize(victims, eligible);
  }

  lemma SubsetOfSameSize<K>(a: set<K>, b: set<K>)
    requires a <= b && |a| == |b|
    ensures a == b
  {
    assert b == a + (b - a);
    assert |b| == |a| + |b - a|;
  }

  lemma SubsetOrSame<K>(a: set<K>, b: set<K>)
    requires a <= b && a != b
    ensures b - a != {}
  {
    var x :| x in b && x !in a;
    assert x in b - a;
  }

  method OldestOf<K(==)>(rest: set<K>, at: map<K, Time>) returns (k: K)
    requires rest != {} && forall x :: x in rest ==> x in at
    ensures k in rest && forall x :: x in rest ==> at[k] <= at[x]
  {
    k :| k in rest;
    var todo := rest;
    while todo != {}
      invariant todo <= rest && k in rest
      invariant forall x :: x in rest && x !in todo ==> at[k] <= at[x]
      decreases |todo|
    {
      var x :| x in todo;
      if at[x] < at[k] { k := x; }
      todo := todo - {x};
    }
  }

  method TakeOldest<K(==, !new)>(eligible: set<K>, at: map<K, Time>, limit: nat) returns (victims: set<K>)
    requires forall k :: k in eligible ==> k in at
    ensures IsBatch(eligible, at, limit, victims)
  {
    victims := {};
    while |victims| < limit && victims != eligible
      invariant victims <= eligible && |victims| <= limit && |victims| <= |eligible|
      invariant forall v, u :: v in victims && u in eligible && u !in victims ==> at[v] <= at[u]
      decreases |eligible| - |victims|
    {
      assert eligible - victims != {} by { SubsetOrSame(victims, eligible); }
      var k := OldestOf(eligible - victims, at);
      assert |eligible| == |victims| + |eligible - victims| by { assert eligible == victims + (eligible - victims); }
      victims := victims + {k};
    }
    if |victims| < limit { assert victims == eligible; }
  }

  // ---- The four classes, batch after batch -----------------------------------

  function VersionAges(db: Db): (m: map<VersionId, Time>) {
    map v | v in db.versions :: db.versions[v].createdAt
  }

  function DeletionAges(db: Db): map<DocId, Time> {
    map d | d in db.docs && db.docs[d].deletedAt.Some? :: db.docs[d].deletedAt.value
  }

  function FetchAges(db: Db): map<PageKey, Time> {
    map p | p in db.pages && db.pages[p].Some? :: db.pages[p].value
  }

  lemma DisjointUnionSize<K>(a: set<K>, b: set<K>)
    requires a !! b
    ensures |a + b| == |a| + |b|
  {
  }

  lemma SubsetSize<K>(a: set<K>, b: set<K>)
    requires a <= b
    ensures |a| <= |b|
  {
    assert b == a + (b - a);
  }

  /** Progress of a drain: a batch taken from what earlier batches left extends
      them, and a short one completes the class. */
  lemma BatchExtends<K(!new)>(all: set<K>, done: set<K>, at: map<K, Time>, limit: nat, b: set<K>)
    requires done <= all && forall k :: k in all - done ==> k in at
    requires IsBatch(all - done, at, limit, b)
    ensures done + b <= all && |done + b| == |done| + |b| && |done + b| <= |all|
    ensures |b| < limit ==> done + b == all
  {
    DisjointUnionSize(done, b);
    SubsetSize(done + b, all);
    if |b| < limit { ShortBatchIsAll(all - done, at, limit, b); }
  }

  lemma VersionsLeft(db: Db, cutoff: Time, done: set<VersionId>)
    ensures OldVersions(RemoveVersions(db, done), cutoff) == OldVersions(db, cutoff) - done
  {
  }

  lemma VersionsJoin(db: Db, a: set<VersionId>, b: set<VersionId>)
    ensures RemoveVersions(RemoveVersions(db, a), b) == RemoveVersions(db, a + b)
  {
    var ca, cb := ChunksOfVersions(db, a), ChunksOfVersions(RemoveVersions(db, a), b);
    assert ChunksOfVersions(db, a + b) == ca + cb;
    assert db.versions - a - b == db.versions - (a + b);
    assert db.chunks - ca - cb == db.chunks - (ca + cb);
  }

  lemma VersionChunksJoin(db: Db, a: set<VersionId>, b: set<VersionId>)
    ensures |ChunksOfVersions(db, a + b)| == |ChunksOfVersions(db, a)| + |ChunksOfVersions(RemoveVersions(db, a), b)|
  {
    var ca, cb := ChunksOfVersions(db, a), ChunksOfVersions(RemoveVersions(db, a), b);
    assert ChunksOfVersions(db, a + b) == ca + cb;
    DisjointUnionSize(ca, cb);
  }

  lemma VersionsBatchExtends(db: Db, cutoff: Time, limit: nat, done: set<VersionId>, b: set<VersionId>)
    requires done <= OldVersions(db, cutoff)
    requires var left := RemoveVersions(db, done); IsBatch(OldVersions(left, cutoff), VersionAges(left), limit, b)
    ensures done + b <= OldVersions(db, cutoff) && |done + b| == |done| + |b| && |done + b| <= |OldVersions(db, cutoff)|
    ensures |b| < limit ==> done + b == OldVersions(db, cutoff)
  {
    VersionsLeft(db, cutoff, done);
    BatchExtends(OldVersions(db, cutoff), done, VersionAges(RemoveVersions(db, done)), limit, b);
  }

  lemma DocsLeft(db: Db, cutoff: Time, done: set<DocId>)
    ensures ExpiredDocs(RemoveDocs(db, done), cutoff) == ExpiredDocs(db, cutoff) - done
  {
  }

  /** By the cascade law both removals take chunks by document alone. */
  lemma DocsJoin(db: Db, a: set<DocId>, b: set<DocId>)
    requires Inv(db)
    ensures RemoveDocs(RemoveDocs(db, a), b) == RemoveDocs(db, a + b)
  {
    var db1 := RemoveDocs(db, a);
    RemoveDocsKeepsInv(db, a);
    ByDocument(db, a);
    ByDocument(db1, b);
    ByDocument(db, a + b);
    assert VersionsOfDocs(db, a + b) == VersionsOfDocs(db, a) + VersionsOfDocs(db1, b);
    assert ChunksOfDocs(db, a + b) == ChunksOfDocs(db, a) + ChunksOfDocs(db1, b);
    assert RemoveDocs(db1, b).docs == RemoveDocs(db, a + b).docs;
    assert RemoveDocs(db1, b).versions == RemoveDocs(db, a + b).versions;
    assert RemoveDocs(db1, b).chunks == RemoveDocs(db, a + b).chunks;
  }

  lemma ByDocument(db: Db, ds: set<DocId>)
    requires ChunksSound(db)
    ensures RemoveDocs(db, ds).chunks == db.chunks - ChunksOfDocs(db, ds)
  {
    CascadeByDocument(db, ds);
    assert ChunksOfDocs(db, ds) + ChunksOfDocs(db, ds) == ChunksOfDocs(db, ds);
  }

  lemma DocChunksSplit(db: Db, a: set<DocId>, b: set<DocId>)
    requires ChunksSound(db)
    ensures var ca, cb := ChunksOfDocs(db, a), ChunksOfDocs(RemoveDocs(db, a), b);
      ca !! cb && ChunksOfDocs(db, a + b) == ca + cb
  {
    ByDocument(db, a);
  }

  lemma DocChunksJoin(db: Db, a: set<DocId>, b: set<DocId>)
    requires ChunksSound(db)
    ensures |ChunksOfDocs(db, a + b)| == |ChunksOfDocs(db, a)| + |ChunksOfDocs(RemoveDocs(db, a), b)|
  {
    DocChunksSplit(db, a, b);
    DisjointUnionSize(ChunksOfDocs(db, a), ChunksOfDocs(RemoveDocs(db, a), b));
  }

  lemma DocsBatchExtends(db: Db, cutoff: Time, limit: nat, done: set<DocId>, b: set<DocId>)
    requires done <= ExpiredDocs(db, cutoff)
    requires var left := RemoveDocs(db, done); IsBatch(ExpiredDocs(left, cutoff), DeletionAges(left), limit, b)
    ensures done + b <= ExpiredDocs(db, cutoff) && |done + b| == |done| + |b| && |done + b| <= |ExpiredDocs(db, cutoff)|
    ensures |b| < limit ==> done + b == ExpiredDocs(db, cutoff)
  {
    DocsLeft(db, cutoff, done);
    BatchExtends(ExpiredDocs(db, cutoff), done, DeletionAges(RemoveDocs(db, done)), limit, b);
  }

  lemma WithoutTwice<K, V>(m: map<K, V>, a: set<K>, b: set<K>)
    ensures m - a - b == m - (a + b)
  {
  }

  lemma LogsLeft(db: Db, cutoff: Time, done: set<nat>)
    ensures OldLogs(RemoveLogs(db, done), cutoff) == OldLogs(db, cutoff) - done
  {
  }

  lemma PagesLeft(db: Db, now: Time, window: Time, done: set<PageKey>)
    ensures StalePages(RemovePages(db, done), now, window) == StalePages(db, now, window) - done
  {
  }

  lemma LogsBatchExtends(db: Db, cutoff: Time, limit: nat, done: set<nat>, b: set<nat>)
    requires done <= OldLogs(db, cutoff)
    requires var left := RemoveLogs(db, done); IsBatch(OldLogs(left, cutoff), left.logs, limit, b)
    ensures done + b <= OldLogs(db, cutoff) && |done + b| == |done| + |b| && |done + b| <= |OldLogs(db, cutoff)|
    ensures |b| < limit ==> done + b == OldLogs(db, cutoff)
    ensures RemoveLogs(RemoveLogs(db, done), b) == RemoveLogs(db, done + b)
  {
    LogsLeft(db, cutoff, done);
    BatchExtends(OldLogs(db, cutoff), done, RemoveLogs(db, done).logs, limit, b);
    WithoutTwice(db.logs, done, b);
  }

  lemma PagesBatchExtends(db: Db, now: Time, window: Time, limit: nat, done: set<PageKey>, b: set<PageKey>)
    requires done <= StalePages(db, now, window)
    requires var left := RemovePages(db, done); IsBatch(StalePages(left, now, window), FetchAges(left), limit, b)
    ensures done + b <= StalePages(db, now, window) && |done + b| == |done| + |b|
    ensures |done + b| <= |StalePages(db, now, window)|
    ensures |b| < limit ==> done + b == StalePages(db, now, window)
    ensures RemovePages(RemovePages(db, done), b) == RemovePages(db, done + b)
  {
    PagesLeft(db, now, window, done);
    BatchExtends(StalePages(db, now, window), done, FetchAges(RemovePages(db, done)), limit, b);
    WithoutTwice(db.pages, done, b);
  }

  // ---- The whole sweep -----------------------------------------------------

  ghost function SweepVersions(db: Db, cutoff: Time): Db {
    RemoveVersions(db, OldVersions(db, cutoff))
  }

  ghost function SweepDocs(db: Db, cutoff: Time): Db {
    RemoveDocs(db, ExpiredDocs(db, cutoff))
  }

  ghost function SweepLogs(db: Db, cutoff: Time): Db {
    RemoveLogs(db, OldLogs(db, cutoff))
  }

  ghost function SweepPages(db: Db, now: Time, window: Time): Db {
    RemovePages(db, StalePages(db, now, window))
  }

  /** Documents, versions and chunks after the first two classes. */
  ghost function SweptContents(db: Db, cut: Cutoffs): Db {
    SweepDocs(SweepVersions(db, cut.versions), cut.docs)
  }

  /** The state one complete sweep leaves, batch sizes notwithstanding. */
  ghost function Swept(db: Db, cut: Cutoffs): Db {
    SweepPages(SweepLogs(SweptContents(db, cut), cut.logs), cut.now, cut.window)
  }

  /** Chunk counts as the statements take them: by version for old versions, by
      document for expired documents. */
  ghost function ChunksReported(db: Db, cut: Cutoffs): nat {
    var db1 := SweepVersions(db, cut.versions);
    |ChunksOfVersions(db, OldVersions(db, cut.versions))|
    + |ChunksOfDocs(db1, ExpiredDocs(db1, cut.docs))|
  }

  /** The metrics one complete sweep returns. */
  ghost function Reported(db: Db, cut: Cutoffs): Metrics {
    Metrics(
      |OldVersions(db, cut.versions)|,
      |ExpiredDocs(SweepVersions(db, cut.versions), cut.docs)|,
      |OldLogs(db, cut.logs)|,
      |StalePages(db, cut.now, cut.window)|,
      ChunksReported(db, cut))
  }

  // ---- Invisible to readers ------------------------------------------------

  lemma RemoveVersionsKeepsView(db: Db, cutoff: Time, vs: set<VersionId>)
    requires Inv(db) && vs <= OldVersions(db, cutoff)
    ensures LiveView(RemoveVersions(db, vs)) == LiveView(db)
  {
    var db' := RemoveVersions(db, vs);
    forall k | k in db.chunks && InLiveView(db, k) ensures k.version !in vs {
      assert db.docs[db.chunks[k].doc].current == Some(k.version);
    }
    assert forall k :: k in db.chunks && InLiveView(db, k) <==> k in db'.chunks && InLiveView(db', k);
  }

  lemma RemoveDocsKeepsView(db: Db, cutoff: Time, ds: set<DocId>)
    requires Inv(db) && ds <= ExpiredDocs(db, cutoff)
    ensures LiveView(RemoveDocs(db, ds)) == LiveView(db)
  {
    var db' := RemoveDocs(db, ds);
    forall k | k in db.chunks && InLiveView(db, k)
      ensures db.chunks[k].doc !in ds && k.version !in VersionsOfDocs(db, ds)
    {
      assert ChunkSound(db, k);
    }
    assert forall k :: k in db.chunks && InLiveView(db, k) <==> k in db'.chunks && InLiveView(db', k);
  }

  /** Any batch of any class, interleaved with anything, hides and shows nothing. */
  lemma BatchKeepsView(db: Db, s: Step)
    requires Inv(db) && Enabled(db, s) && (s.GcVersions? || s.GcDocs? || s.GcLogs? || s.GcPages?)
    ensures LiveView(Apply(db, s)) == LiveView(db)
  {
    match s
    case GcVersions(cutoff, vs) => RemoveVersionsKeepsView(db, cutoff, vs);
    case GcDocs(cutoff, ds) => RemoveDocsKeepsView(db, cutoff, ds);
    case GcLogs(ls) => SameContentsSameView(db, RemoveLogs(db, ls));
    case GcPages(ps) => SameContentsSameView(db, RemovePages(db, ps));
  }

  lemma SweepVersionsKeeps(db: Db, cutoff: Time)
    requires Inv(db)
    ensures Inv(SweepVersions(db, cutoff)) && LiveView(SweepVersions(db, cutoff)) == LiveView(db)
  {
    RemoveVersionsKeepsInv(db, cutoff, OldVersions(db, cutoff));
    RemoveVersionsKeepsView(db, cutoff, OldVersions(db, cutoff));
  }

  lemma SweepDocsKeeps(db: Db, cutoff: Time)
    requires Inv(db)
    ensures Inv(SweepDocs(db, cutoff)) && LiveView(SweepDocs(db, cutoff)) == LiveView(db)
  {
    RemoveDocsKeepsInv(db, ExpiredDocs(db, cutoff));
    RemoveDocsKeepsView(db, cutoff, ExpiredDocs(db, cutoff));
  }

  ghost predicate SameContents(a: Db, b: Db) {
    a.docs == b.docs && a.versions == b.versions && a.chunks == b.chunks
  }

  lemma SameContentsSameView(a: Db, b: Db)
    requires SameContents(a, b)
    ensures LiveView(a) == LiveView(b)
  {
    assert forall k :: InLiveView(a, k) <==> InLiveView(b, k);
  }

  lemma SameContentsKeep(a: Db, b: Db)
    requires Inv(a) && SameContents(a, b)
    ensures Inv(b) && LiveView(b) == LiveView(a)
  {
    OtherTablesKeepInv(a, b);
    SameContentsSameView(a, b);
  }

  lemma ContentsKept(db: Db, oldCutoff: Time, docCutoff: Time)
    requires Inv(db)
    ensures var db2 := SweepDocs(SweepVersions(db, oldCutoff), docCutoff);
      Inv(db2) && LiveView(db2) == LiveView(db)
  {
    SweepVersionsKeeps(db, oldCutoff);
    SweepDocsKeeps(SweepVersions(db, oldCutoff), docCutoff);
  }

  /** A complete sweep keeps the invariant and leaves the live view as it was. */
  lemma SweptKeeps(db: Db, cut: Cutoffs)
    requires Inv(db)
    ensures Inv(Swept(db, cut)) && LiveView(Swept(db, cut)) == LiveView(db)
  {
    ContentsKept(db, cut.versions, cut.docs);
    SameContentsKeep(SweptContents(db, cut), Swept(db, cut));
  }

  // ---- Exhaustive and idempotent -------------------------------------------

  lemma SweepVersionsEmpties(db: Db, cutoff: Time)
    ensures OldVersions(SweepVersions(db, cutoff), cutoff) == {}
  {
    var db' := SweepVersions(db, cutoff);
    forall v | v in db'.versions ensures v !in OldVersions(db', cutoff) {
      assert v !in OldVersions(db, cutoff);
    }
  }

  lemma SweepDocsEmpties(db: Db, cutoff: Time)
    ensures ExpiredDocs(SweepDocs(db, cutoff), cutoff) == {}
  {
  }

  /** Deleting documents frees no version for the version sweep: whoever points
      at a version owns it, and takes it along. */
  lemma SweepDocsFreesNoVersion(db: Db, cutoff: Time, oldCutoff: Time)
    requires Inv(db) && OldVersions(db, oldCutoff) == {}
    ensures OldVersions(SweepDocs(db, cutoff), oldCutoff) == {}
  {
    var db' := SweepDocs(db, cutoff);
    forall v | v in db'.versions && db'.versions[v].createdAt < oldCutoff
      ensures v !in OldVersions(db', oldCutoff)
    {
      assert v in db.versions && v !in OldVersions(db, oldCutoff);
      var d :| d in db.docs && db.docs[d].current == Some(v);
      assert OwnsCurrent(db, d);
      assert d in db'.docs;
    }
  }

  lemma EligibilityReadsContents(a: Db, b: Db, cutoff: Time)
    requires SameContents(a, b)
    ensures OldVersions(a, cutoff) == OldVersions(b, cutoff) && ExpiredDocs(a, cutoff) == ExpiredDocs(b, cutoff)
  {
  }

  ghost predicate NoVictim(db: Db, cut: Cutoffs) {
    && OldVersions(db, cut.versions) == {}
    && ExpiredDocs(db, cut.docs) == {}
    && OldLogs(db, cut.logs) == {}
    && StalePages(db, cut.now, cut.window) == {}
  }

  lemma ContentsEmptied(db: Db, oldCutoff: Time, docCutoff: Time)
    requires Inv(db)
    ensures var db2 := SweepDocs(SweepVersions(db, oldCutoff), docCutoff);
      OldVersions(db2, oldCutoff) == {} && ExpiredDocs(db2, docCutoff) == {}
  {
    SweepVersionsKeeps(db, oldCutoff);
    SweepVersionsEmpties(db, oldCutoff);
    SweepDocsFreesNoVersion(SweepVersions(db, oldCutoff), docCutoff, oldCutoff);
    SweepDocsEmpties(SweepVersions(db, oldCutoff), docCutoff);
  }

  lemma LogsAndPagesEmptied(db2: Db, cutoff: Time, now: Time, window: Time)
    ensures var db' := SweepPages(SweepLogs(db2, cutoff), now, window);
      SameContents(db', db2) && OldLogs(db', cutoff) == {} && StalePages(db', now, window) == {}
  {
  }

  lemma NoVictimIn(db2: Db, db': Db, cut: Cutoffs)
    requires SameContents(db', db2)
    requires OldVersions(db2, cut.versions) == {} && ExpiredDocs(db2, cut.docs) == {}
    requires OldLogs(db', cut.logs) == {} && StalePages(db', cut.now, cut.window) == {}
    ensures NoVictim(db', cut)
  {
    EligibilityReadsContents(db', db2, cut.versions);
    EligibilityReadsContents(db', db2, cut.docs);
  }

  /** No row eligible in any swept class is left. */
  lemma NoVictimLeft(db: Db, cut: Cutoffs)
    requires Inv(db)
    ensures NoVictim(Swept(db, cut), cut)
  {
    ContentsEmptied(db, cut.versions, cut.docs);
    LogsAndPagesEmptied(SweptContents(db, cut), cut.logs, cut.now, cut.window);
    NoVictimIn(SweptContents(db, cut), Swept(db, cut), cut);
  }

  lemma RemoveNothing(db: Db)
    ensures RemoveVersions(db, {}) == db && RemoveDocs(db, {}) == db
    ensures RemoveLogs(db, {}) == db && RemovePages(db, {}) == db
    ensures ChunksOfVersions(db, {}) == {} && ChunksOfDocs(db, {}) == {} && VersionsOfDocs(db, {}) == {}
  {
    assert VersionsOfDocs(db, {}) == {} && ChunksOfVersions(db, {}) == {} && ChunksOfDocs(db, {}) == {};
    assert db.docs - {} == db.docs && db.versions - {} == db.versions && db.chunks - {} == db.chunks;
    assert db.logs - {} == db.logs && db.pages - {} == db.pages;
  }

  lemma NothingToSweep(db: Db, cut: Cutoffs)
    requires NoVictim(db, cut)
    ensures Swept(db, cut) == db && Reported(db, cut) == Metrics(0, 0, 0, 0, 0)
  {
    RemoveNothing(db);
    assert SweepVersions(db, cut.versions) == db;
    assert SweepDocs(db, cut.docs) == db;
    assert SweepLogs(db, cut.logs) == db;
    assert SweepPages(db, cut.now, cut.window) == db;
  }

  /** A second sweep with the same clock removes nothing and reports nothing. */
  lemma SweepIdempotent(db: Db, cut: Cutoffs)
    requires Inv(db)
    ensures Swept(Swept(db, cut), cut) == Swept(db, cut)
    ensures Reported(Swept(db, cut), cut) == Metrics(0, 0, 0, 0, 0)
  {
    NoVictimLeft(db, cut);
    NothingToSweep(Swept(db, cut), cut);
  }

  // ---- Exact counts --------------------------------------------------------

  lemma MapWithout<K, V>(m: map<K, V>, gone: set<K>)
    requires gone <= m.Keys
    ensures |m - gone| == |m| - |gone|
  {
    assert m.Keys == (m - gone).Keys + gone;
    assert |m.Keys| == |(m - gone).Keys| + |gone|;
  }

  lemma RemoveVersionsCounts(db: Db, vs: set<VersionId>)
    requires vs <= db.versions.Keys
    ensures |RemoveVersions(db, vs).versions| == |db.versions| - |vs|
    ensures |RemoveVersions(db, vs).chunks| == |db.chunks| - |ChunksOfVersions(db, vs)|
  {
    MapWithout(db.versions, vs);
    MapWithout(db.chunks, ChunksOfVersions(db, vs));
  }

  lemma CascadeByDocument(db: Db, ds: set<DocId>)
    requires ChunksSound(db)
    ensures ChunksOfVersions(db, VersionsOfDocs(db, ds)) == ChunksOfDocs(db, ds)
  {
    forall k | k in db.chunks ensures k.version in VersionsOfDocs(db, ds) <==> db.chunks[k].doc in ds {
      assert ChunkSound(db, k);
    }
  }

  /** Counting chunks by document counts exactly what the two cascades remove,
      because a chunk's version belongs to the chunk's document. */
  lemma RemoveDocsCounts(db: Db, ds: set<DocId>)
    requires ChunksSound(db) && ds <= db.docs.Keys
    ensures |RemoveDocs(db, ds).docs| == |db.docs| - |ds|
    ensures |RemoveDocs(db, ds).versions| == |db.versions| - |VersionsOfDocs(db, ds)|
    ensures |RemoveDocs(db, ds).chunks| == |db.chunks| - |ChunksOfDocs(db, ds)|
  {
    CascadeByDocument(db, ds);
    var gone := ChunksOfDocs(db, ds);
    assert ChunksOfVersions(db, VersionsOfDocs(db, ds)) + gone == gone;
    MapWithout(db.docs, ds);
    MapWithout(db.versions, VersionsOfDocs(db, ds));
    MapWithout(db.chunks, gone);
  }

  lemma LogsCount(db: Db, db2: Db, cutoff: Time)
    requires db2.logs == db.logs
    ensures |OldLogs(db, cutoff)| == |db.logs| - |SweepLogs(db2, cutoff).logs|
  {
    assert OldLogs(db2, cutoff) == OldLogs(db, cutoff);
    MapWithout(db.logs, OldLogs(db, cutoff));
  }

  lemma PagesCount(db: Db, db3: Db, now: Time, window: Time)
    requires db3.pages == db.pages
    ensures |StalePages(db, now, window)| == |db.pages| - |SweepPages(db3, now, window).pages|
  {
    assert StalePages(db3, now, window) == StalePages(db, now, window);
    MapWithout(db.pages, StalePages(db, now, window));
  }

  lemma ReportedContents(db: Db, cut: Cutoffs)
    requires Inv(db)
    ensures var db1, db2 := SweepVersions(db, cut.versions), SweptContents(db, cut);
      && |OldVersions(db, cut.versions)| == |db.versions| - |db1.versions|
      && |VersionsOfDocs(db1, ExpiredDocs(db1, cut.docs))| == |db1.versions| - |db2.versions|
      && |ExpiredDocs(db1, cut.docs)| == |db.docs| - |db2.docs|
      && ChunksReported(db, cut) == |db.chunks| - |db2.chunks|
  {
    var db1 := SweepVersions(db, cut.versions);
    SweepVersionsKeeps(db, cut.versions);
    RemoveVersionsCounts(db, OldVersions(db, cut.versions));
    RemoveDocsCounts(db1, ExpiredDocs(db1, cut.docs));
  }

  /** Every reported number is rows before minus rows after, cascaded chunks
      included. Versions taken by the document cascade are the one removal no
      number reports. */
  lemma ReportedIsRemoved(db: Db, cut: Cutoffs)
    requires Inv(db)
    ensures var m, db' := Reported(db, cut), Swept(db, cut);
      var db1 := SweepVersions(db, cut.versions);
      && m.deletedDocs == |db.docs| - |db'.docs|
      && m.queryLogs == |db.logs| - |db'.logs|
      && m.crawlPages == |db.pages| - |db'.pages|
      && m.chunks == |db.chunks| - |db'.chunks|
      && m.oldVersions + |VersionsOfDocs(db1, ExpiredDocs(db1, cut.docs))| == |db.versions| - |db'.versions|
  {
    ReportedContents(db, cut);
    LogsCount(db, SweptContents(db, cut), cut.logs);
    PagesCount(db, SweepLogs(SweptContents(db, cut), cut.logs), cut.now, cut.window);
  }

  // ---- What goes, in terms of the policy and the clock alone --------------------------

  /** The rows that one complete collection removes are those the policy names, and the
      others stay as they are. */
  ghost predicate CollectedDocs(db: Db, db': Db, p: Policy, now: Time) {
    && (forall d :: d in db'.docs <==> d in db.docs && !Expired(db.docs[d], now - Window(p.deletedDocRetention, 30)))
    && (forall d :: d in db'.docs ==> db'.docs[d] == db.docs[d])
  }

  ghost predicate Expired(d: Doc, before: Time) {
    d.status == Deleted && d.deletedAt.Some? && d.deletedAt.value < before
  }

  /** Old versions that no document points at, and those of removed documents. */
  ghost predicate CollectedVersions(db: Db, db': Db, p: Policy, now: Time) {
    && (forall v :: v in db'.versions <==>
          && v in db.versions && db.versions[v].doc in db'.docs
          && !(db.versions[v].createdAt < now - Window(p.versionRetention, 30)
               && forall d :: d in db.docs ==> db.docs[d].current != Some(v)))
    && (forall v :: v in db'.versions ==> db'.versions[v] == db.versions[v])
  }

  ghost predicate CollectedChunks(db: Db, db': Db) {
    && (forall k :: k in db'.chunks <==> k in db.chunks && k.version in db'.versions)
    && (forall k :: k in db'.chunks ==> db'.chunks[k] == db.chunks[k])
  }

  ghost predicate CollectedLogs(db: Db, db': Db, p: Policy, now: Time) {
    && (forall l :: l in db'.logs <==> l in db.logs && db.logs[l] >= now - Window(p.queryLogRetention, 90))
    && (forall l :: l in db'.logs ==> db'.logs[l] == db.logs[l])
  }

  /** Pages never fetched stay, and all do when no window is set. */
  ghost predicate CollectedPages(db: Db, db': Db, p: Policy, now: Time) {
    && (forall k :: k in db'.pages <==>
          k in db.pages && !(p.crawlPageStale > 0 && db.pages[k].Some? && db.pages[k].value < now - p.crawlPageStale))
    && (forall k :: k in db'.pages ==> db'.pages[k] == db.pages[k])
  }

  ghost predicate Collected(db: Db, db': Db, p: Policy, now: Time) {
    && CollectedDocs(db, db', p, now) && CollectedVersions(db, db', p, now) && CollectedChunks(db, db')
    && CollectedLogs(db, db', p, now) && CollectedPages(db, db', p, now)
  }

  lemma SweepVersionsTakes(db: Db, cutoff: Time)
    requires Inv(db)
    ensures var db1 := SweepVersions(db, cutoff);
      && db1.docs == db.docs
      && (forall v :: v in db1.versions <==>
            && v in db.versions
            && !(db.versions[v].createdAt < cutoff && forall d :: d in db.docs ==> db.docs[d].current != Some(v)))
      && (forall v :: v in db1.versions ==> db1.versions[v] == db.versions[v])
      && CollectedChunks(db, db1)
  {
    forall k | k in db.chunks ensures k.version in db.versions { assert ChunkSound(db, k); }
  }

  lemma SweepDocsTakes(db1: Db, cutoff: Time)
    requires Inv(db1)
    ensures var db2 := SweepDocs(db1, cutoff);
      && (forall d :: d in db2.docs <==> d in db1.docs && !Expired(db1.docs[d], cutoff))
      && (forall d :: d in db2.docs ==> db2.docs[d] == db1.docs[d])
      && (forall v :: v in db2.versions <==> v in db1.versions && db1.versions[v].doc in db2.docs)
      && (forall v :: v in db2.versions ==> db2.versions[v] == db1.versions[v])
      && CollectedChunks(db1, db2)
  {
    forall v | v in db1.versions ensures db1.versions[v].doc in db1.docs { assert HasDoc(db1, v); }
    forall k | k in db1.chunks
      ensures && k.version in db1.versions && db1.versions[k.version].doc == db1.chunks[k].doc
              && db1.chunks[k].doc in db1.docs
    {
      assert ChunkSound(db1, k);
    }
  }

  lemma ContentsTaken(db: Db, p: Policy, now: Time)
    requires Inv(db)
    ensures var db2 := SweptContents(db, CutoffsOf(WithDefaults(p), now));
      CollectedDocs(db, db2, p, now) && CollectedVersions(db, db2, p, now) && CollectedChunks(db, db2)
  {
    var cut := CutoffsOf(WithDefaults(p), now);
    var db1 := SweepVersions(db, cut.versions);
    SweepVersionsTakes(db, cut.versions);
    SweepVersionsKeeps(db, cut.versions);
    SweepDocsTakes(db1, cut.docs);
  }

  lemma LogsAndPagesTaken(db: Db, db2: Db, p: Policy, now: Time)
    requires db2.logs == db.logs && db2.pages == db.pages
    ensures var cut := CutoffsOf(WithDefaults(p), now);
      var db' := SweepPages(SweepLogs(db2, cut.logs), cut.now, cut.window);
      && SameContents(db', db2) && CollectedLogs(db, db', p, now) && CollectedPages(db, db', p, now)
  {
  }

  /** CollectGarbage's effect: a document goes if and only if it was deleted longer ago
      than its window, a version if and only if it is old and nobody's current or its
      document goes, a log and a page by their own windows, a chunk with its version. */
  lemma CollectedExactly(db: Db, p: Policy, now: Time)
    requires Inv(db)
    ensures Collected(db, Swept(db, CutoffsOf(WithDefaults(p), now)), p, now)
  {
    var cut := CutoffsOf(WithDefaults(p), now);
    ContentsTaken(db, p, now);
    LogsAndPagesTaken(db, SweptContents(db, cut), p, now);
  }

  /** A document deleted now is still there for a whole window, and not beyond. */
  lemma GraceIsExact(db: Db, d: DocId, deletedAt: Time, p: Policy, now: Time)
    requires Inv(db) && d in db.docs && db.docs[d].status == Active
    ensures var db' := SoftDelete(db, d, deletedAt);
      && Inv(db')
      && (d in Swept(db', CutoffsOf(WithDefaults(p), now)).docs <==>
            now - Window(p.deletedDocRetention, 30) <= deletedAt)
  {
    SoftDeleteKeepsInv(db, d, deletedAt);
    var db' := SoftDelete(db, d, deletedAt);
    CollectedExactly(db', p, now);
    assert db'.docs[d].status == Deleted && db'.docs[d].deletedAt == Some(deletedAt);
  }
}
