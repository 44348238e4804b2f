/** The document store itself: tables changed in place, statement by statement,
    each method proved against the step it performs. */
module Store {
  import opened Basics
  import opened Rows
  import opened StoreSteps
  import opened Retention

  /** The first failing check of validatePut, in the order it makes them. */
  ghost predicate RefusedFor(inp: PutInput, e: PutError) {
    match e
    case MissingExternal => inp.external == ""
    case BadSource => inp.external != "" && inp.source.None?
    case MissingHash => inp.external != "" && inp.source.Some? && inp.hash == []
    case MissingEmbedding(i) =>
      && inp.external != "" && inp.source.Some? && inp.hash != []
      && i < |inp.chunks| && (forall j :: 0 <= j < i ==> ChunkReady(inp.chunks[j]))
      && inp.chunks[i].body.embedding == []
    case MissingModel(i) =>
      && inp.external != "" && inp.source.Some? && inp.hash != []
      && i < |inp.chunks| && (forall j :: 0 <= j < i ==> ChunkReady(inp.chunks[j]))
      && inp.chunks[i].body.embedding != [] && inp.chunks[i].body.model == ""
    case ConstraintViolated => false
  }

  method ValidatePut(inp: PutInput) returns (e: Option<PutError>)
    ensures e.None? <==> ValidPut(inp)
    ensures e.Some? ==> RefusedFor(inp, e.value)
    ensures e.None? ==> forall x {:trigger RefusedFor(inp, x)} :: !RefusedFor(inp, x)
  {
    if inp.external == "" { return Some(MissingExternal); }
    if inp.source.None? { return Some(BadSource); }
    if inp.hash == [] { return Some(MissingHash); }
    for i := 0 to |inp.chunks|
      invariant forall j :: 0 <= j < i ==> ChunkReady(inp.chunks[j])
    {
      var c := inp.chunks[i];
      assert ValidPut(inp) ==> ChunkReady(c);
      if c.body.embedding == [] { return Some(MissingEmbedding(i)); }
      if c.body.model == "" { return Some(MissingModel(i)); }
    }
    return None;
  }

  /** The state a whole Put leaves when nothing runs between its lookup and its
      write: untouched on a refusal or a constraint violation. */
  ghost function PutState(db: Db, inp: PutInput, now: Time, fd: DocId, fv: VersionId): Db {
    if !ValidPut(inp) then db
    else
      match Unchanged(db, KeyOf(inp), inp.hash)
      case Some(d) => TouchRow(db, d, now)
      case None => if Reuses(db, inp, fd) || Insertable(inp.chunks) then CommitPut(db, inp, now, fd, fv) else db
  }

  ghost predicate PutAnswers(db: Db, inp: PutInput, fd: DocId, fv: VersionId, r: PutResult) {
    if !ValidPut(inp) then r.Refused? && RefusedFor(inp, r.error)
    else
      match Unchanged(db, KeyOf(inp), inp.hash)
      case Some(d) => d in db.docs && db.docs[d].current.Some? && r == Stored(d, db.docs[d].current.value, false)
      case None =>
        if Reuses(db, inp, fd) || Insertable(inp.chunks)
        then r == Stored(PutDoc(db, inp, fd), PutVersion(db, inp, fd, fv), true)
        else r == Refused(ConstraintViolated)
  }

  class TenantStore {
    var docs: map<DocId, Doc>
    var versions: map<VersionId, Version>
    var chunks: ChunkTable
    var logs: map<nat, Time>
    var pages: map<PageKey, Option<Time>>

    function View(): Db reads this { Db(docs, versions, chunks, logs, pages) }

    ghost predicate Valid() reads this { Inv(View()) }

    constructor ()
      ensures Valid() && View() == EmptyDb
    {
      docs, versions, chunks, logs, pages := map[], map[], map[], map[], map[];
    }

    // ---- Put ---------------------------------------------------------------

    method FindDoc(key: Key) returns (r: Option<DocId>)
      requires KeysUnique(View())
      ensures r == DocOf(View(), key)
      ensures r.Some? ==> r.value in docs && docs[r.value].key == key
    {
      if d :| d in docs && docs[d].key == key {
        DocOfUnique(View(), d);
        return Some(d);
      }
      return None;
    }

    method FindVersion(d: DocId, hash: Hash) returns (r: Option<VersionId>)
      ensures r.Some? ==> r.value in versions && versions[r.value].doc == d && versions[r.value].hash == hash
      ensures r.None? ==> forall v :: v in versions && versions[v].doc == d ==> versions[v].hash != hash
    {
      if v :| v in versions && versions[v].doc == d && versions[v].hash == hash { return Some(v); }
      return None;
    }

    /** The lookup Put makes before opening its transaction. */
    method LookupUnchanged(key: Key, hash: Hash) returns (r: Option<DocId>)
      requires Valid()
      ensures r == Unchanged(View(), key, hash)
    {
      r := FindDoc(key);
      if r.Some? {
        assert OwnsCurrent(View(), r.value);
        if versions[docs[r.value].current.value].hash != hash { r := None; }
      }
    }

    method Put(inp: PutInput, now: Time, freshDoc: DocId, freshVersion: VersionId) returns (r: PutResult)
      requires Valid() && Fresh(View(), freshDoc, freshVersion)
      modifies this
      ensures Valid()
      ensures View() == PutState(old(View()), inp, now, freshDoc, freshVersion)
      ensures PutAnswers(old(View()), inp, freshDoc, freshVersion, r)
    {
      var e := ValidatePut(inp);
      if e.Some? { return Refused(e.value); }
      var u := LookupUnchanged(KeyOf(inp), inp.hash);
      if u.Some? {
        TouchRowKeepsInv(View(), u.value, now);
        assert OwnsCurrent(View(), u.value);
        docs := docs[u.value := docs[u.value].(lastSeen := now)];
        return Stored(u.value, docs[u.value].current.value, false);
      }
      r := Commit(inp, now, freshDoc, freshVersion);
    }

    /** The chunk loop of the transaction, stopping at the first violation. */
    method InsertChunks(cs: seq<ChunkInput>, d: DocId, source: SourceId, v: VersionId, now: Time) returns (ok: bool)
      requires forall k :: k in chunks ==> k.version != v
      modifies this`chunks
      ensures ok == Insertable(cs)
      ensures ok ==> chunks == old(chunks) + NewRows(cs, d, source, v, now)
    {
      var i := 0;
      while i < |cs|
        invariant 0 <= i <= |cs|
        invariant Insertable(cs[..i])
        invariant chunks == old(chunks) + NewRows(cs[..i], d, source, v, now)
      {
        var c := cs[i];
        var k := ChunkKey(v, c.position);
        RowTaken(old(chunks), cs, i, d, source, v, now);
        if c.body.hash.None? || k in chunks { return false; }
        chunks := chunks[k := Chunk(d, source, c.body, now)];
        InsertableNext(cs, i);
        assert cs[..i + 1][..i] == cs[..i];
        i := i + 1;
      }
      assert cs[..i] == cs;
      return true;
    }

    method Upsert(inp: PutInput, now: Time, freshDoc: DocId) returns (d: DocId)
      requires Valid() && inp.source.Some? && freshDoc !in docs
      modifies this`docs
      ensures d == PutDoc(old(View()), inp, freshDoc)
      ensures docs == old(docs)[d := UpsertRow(old(View()), inp, now, d)]
    {
      var found := FindDoc(KeyOf(inp));
      if found.Some? {
        d := found.value;
        docs := docs[d := docs[d].(attrs := inp.attrs, status := Active, lastSeen := now)];
      } else {
        d := freshDoc;
        docs := docs[d := Doc(KeyOf(inp), inp.attrs, Active, None, now, now, None)];
      }
    }

    /** Reuse the version that already has this hash, or build it with its
        chunks; None when a row violates a constraint. */
    method SettleVersion(inp: PutInput, now: Time, d: DocId, freshVersion: VersionId, ghost db: Db)
          returns (v: Option<VersionId>)
      requires Inv(db) && versions == db.versions && chunks == db.chunks
      requires freshVersion !in versions && inp.source.Some?
      modifies this`versions, this`chunks
      ensures match VersionOf(db, d, inp.hash)
        case Some(w) => v == Some(w) && versions == db.versions && chunks == db.chunks
        case None =>
          if Insertable(inp.chunks)
          then v == Some(freshVersion)
               && versions == db.versions[freshVersion := Version(d, inp.hash, inp.content, now)]
               && chunks == db.chunks + NewRows(inp.chunks, d, inp.source.value, freshVersion, now)
          else v == None
    {
      v := FindVersion(d, inp.hash);
      FoundIsVersionOf(db, versions, d, inp.hash, v);
      if v.None? {
        versions := versions[freshVersion := Version(d, inp.hash, inp.content, now)];
        forall k | k in chunks ensures k.version != freshVersion { assert ChunkSound(db, k); }
        var ok := InsertChunks(inp.chunks, d, inp.source.value, freshVersion, now);
        if ok { v := Some(freshVersion); }
      }
    }

    /** The statements of Put's transaction up to its commit, unless a row violates a
        constraint. */
    method Transact(inp: PutInput, now: Time, freshDoc: DocId, freshVersion: VersionId)
          returns (d: DocId, v: Option<VersionId>)
      requires Valid() && inp.source.Some? && Fresh(View(), freshDoc, freshVersion)
      modifies this`docs, this`versions, this`chunks
      ensures v.Some? <==> Reuses(old(View()), inp, freshDoc) || Insertable(inp.chunks)
      ensures v.Some? ==>
        && d == PutDoc(old(View()), inp, freshDoc)
        && v.value == PutVersion(old(View()), inp, freshDoc, freshVersion)
        && View() == CommitPut(old(View()), inp, now, freshDoc, freshVersion)
    {
      ghost var db := View();
      d := Upsert(inp, now, freshDoc);
      v := SettleVersion(inp, now, d, freshVersion, db);
      if v.Some? {
        docs := docs[d := docs[d].(current := v, lastSeen := now, status := Active)];
        CommitIs(db, inp, now, freshDoc, freshVersion, v.value, docs, versions, chunks);
      }
    }

    /** Put's transaction, rolled back whole when a row violates a constraint. */
    method Commit(inp: PutInput, now: Time, freshDoc: DocId, freshVersion: VersionId) returns (r: PutResult)
      requires Valid() && ValidPut(inp) && Fresh(View(), freshDoc, freshVersion)
      modifies this
      ensures Valid()
      ensures var db := old(View());
        if Reuses(db, inp, freshDoc) || Insertable(inp.chunks)
        then View() == CommitPut(db, inp, now, freshDoc, freshVersion)
             && r == Stored(PutDoc(db, inp, freshDoc), PutVersion(db, inp, freshDoc, freshVersion), true)
        else View() == db && r == Refused(ConstraintViolated)
    {
      ghost var db := View();
      var docs0, versions0, chunks0 := docs, versions, chunks;
      var d, v := Transact(inp, now, freshDoc, freshVersion);
      if v.None? {
        docs, versions, chunks := docs0, versions0, chunks0;
        return Refused(ConstraintViolated);
      }
      CommitPutKeepsInv(db, inp, now, freshDoc, freshVersion);
      return Stored(d, v.value, true);
    }

    // ---- Sync --------------------------------------------------------------

    method TouchUnchanged(source: Option<SourceId>, external: string, hash: Hash, now: Time)
          returns (same: Option<bool>)
      requires Valid()
      modifies this
      ensures Valid()
      ensures same.None? <==> source.None? || external == "" || hash == []
      ensures same.None? ==> View() == old(View())
      ensures same.Some? ==>
        && View() == TouchIfUnchanged(old(View()), Key(source.value, external), hash, now)
        && same.value == Unchanged(old(View()), Key(source.value, external), hash).Some?
    {
      if source.None? || external == "" || hash == [] { return None; }
      var u := LookupUnchanged(Key(source.value, external), hash);
      TouchIfUnchangedKeepsInv(View(), Key(source.value, external), hash, now);
      if u.Some? {
        docs := docs[u.value := docs[u.value].(lastSeen := now, status := Active, deletedAt := None)];
      }
      return Some(u.Some?);
    }

    /** SoftDelete: an id that is not a UUID names no document. */
    method DeleteDoc(id: Option<DocId>, now: Time) returns (existed: bool)
      requires Valid()
      modifies this
      ensures Valid()
      ensures existed <==> id.Some? && id.value in old(docs)
      ensures View() == if id.Some? then SoftDelete(old(View()), id.value, now) else old(View())
    {
      if id.None? { return false; }
      var d := id.value;
      SoftDeleteKeepsInv(View(), d, now);
      if d in docs && docs[d].status != Deleted {
        docs := docs[d := docs[d].(status := Deleted, deletedAt := Some(now))];
        return true;
      }
      return d in docs;
    }

    /** SoftDeleteUnseen: nothing is returned for a source that is not a UUID or an
        unset start. */
    method SweepUnseen(source: Option<SourceId>, startedAt: Option<Time>, now: Time) returns (flipped: Option<nat>)
      requires Valid()
      modifies this
      ensures Valid()
      ensures flipped.Some? <==> source.Some? && startedAt.Some?
      ensures flipped.None? ==> View() == old(View())
      ensures flipped.Some? ==>
        && View() == SoftDeleteUnseen(old(View()), source.value, startedAt.value, now)
        && flipped.value == |UnseenDocs(old(View()), source.value, startedAt.value)|
    {
      if source.None? || startedAt.None? { return None; }
      var victims := UnseenDocs(View(), source.value, startedAt.value);
      SweepKeepsInv(View(), source.value, startedAt.value, now);
      docs := map d | d in docs ::
        if d in victims then docs[d].(status := Deleted, deletedAt := Some(now)) else docs[d];
      return Some(|victims|);
    }

    /** Counts chunks by their source column before the cascade removes them by
        document. */
    method RemoveSource(source: SourceId) returns (documents: nat, removedChunks: nat, crawlPages: nat)
      requires Valid()
      modifies this
      ensures Valid()
      ensures View() == DeleteSource(old(View()), source)
      ensures documents == |old(View()).docs| - |View().docs|
      ensures removedChunks == |old(View()).chunks| - |View().chunks|
      ensures crawlPages == |old(View()).pages| - |View().pages|
    {
      var ds, ps := DocsOfSource(View(), source), PagesOfSource(View(), source);
      removedChunks := |set k | k in chunks && chunks[k].source == source|;
      documents, crawlPages := |ds|, |ps|;
      SourceCounts(View(), source);
      StepKeepsInv(View(), DropSource(source));
      var vs := VersionsOfDocs(View(), ds);
      chunks := chunks - (ChunksOfVersions(View(), vs) + ChunksOfDocs(View(), ds));
      versions := versions - vs;
      docs := docs - ds;
      pages := pages - ps;
    }

    // ---- Retention ---------------------------------------------------------

    /** One batch: at most `limit` of the oldest unreferenced versions, with the
        chunks their cascade removes counted in the same statement. */
    method VersionsBatch(cutoff: Time, limit: nat) returns (rows: nat, gone: nat, ghost victims: set<VersionId>)
      requires Valid()
      modifies this`versions, this`chunks
      ensures Valid()
      ensures IsBatch(OldVersions(old(View()), cutoff), VersionAges(old(View())), limit, victims)
      ensures forall v, u :: v in victims && u in OldVersions(old(View()), cutoff) && u !in victims ==>
        old(versions)[v].createdAt <= old(versions)[u].createdAt
      ensures View() == RemoveVersions(old(View()), victims)
      ensures rows == |victims| <= limit && gone == |ChunksOfVersions(old(View()), victims)|
    {
      var vs := TakeOldest(OldVersions(View(), cutoff), VersionAges(View()), limit);
      var dead := ChunksOfVersions(View(), vs);
      RemoveVersionsKeepsInv(View(), cutoff, vs);
      versions, chunks := versions - vs, chunks - dead;
      return |vs|, |dead|, vs;
    }

    method DocsBatch(cutoff: Time, limit: nat) returns (rows: nat, gone: nat, ghost victims: set<DocId>)
      requires Valid()
      modifies this`docs, this`versions, this`chunks
      ensures Valid()
      ensures IsBatch(ExpiredDocs(old(View()), cutoff), DeletionAges(old(View())), limit, victims)
      ensures forall d, e :: d in victims && e in ExpiredDocs(old(View()), cutoff) && e !in victims ==>
        old(docs)[d].deletedAt.value <= old(docs)[e].deletedAt.value
      ensures View() == RemoveDocs(old(View()), victims)
      ensures rows == |victims| <= limit && gone == |ChunksOfDocs(old(View()), victims)|
    {
      var ds := TakeOldest(ExpiredDocs(View(), cutoff), DeletionAges(View()), limit);
      var dead := ChunksOfDocs(View(), ds);
      RemoveDocsKeepsInv(View(), ds);
      var vs := VersionsOfDocs(View(), ds);
      docs, versions, chunks := docs - ds, versions - vs, chunks - (ChunksOfVersions(View(), vs) + dead);
      return |ds|, |dead|, ds;
    }

    method LogsBatch(cutoff: Time, limit: nat) returns (rows: nat, ghost victims: set<nat>)
      requires Valid()
      modifies this`logs
      ensures Valid()
      ensures IsBatch(OldLogs(old(View()), cutoff), old(logs), limit, victims)
      ensures View() == RemoveLogs(old(View()), victims) && rows == |victims| <= limit
    {
      var ls := TakeOldest(OldLogs(View(), cutoff), logs, limit);
      OtherTablesKeepInv(View(), RemoveLogs(View(), ls));
      logs := logs - ls;
      return |ls|, ls;
    }

    /** Pages never fetched are pending, not stale. */
    method PagesBatch(now: Time, window: Time, limit: nat) returns (rows: nat, ghost victims: set<PageKey>)
      requires Valid()
      modifies this`pages
      ensures Valid()
      ensures IsBatch(StalePages(old(View()), now, window), FetchAges(old(View())), limit, victims)
      ensures forall p, q :: p in victims && q in StalePages(old(View()), now, window) && q !in victims ==>
        old(pages)[p].value <= old(pages)[q].value
      ensures View() == RemovePages(old(View()), victims) && rows == |victims| <= limit
    {
      var ps := TakeOldest(StalePages(View(), now, window), FetchAges(View()), limit);
      OtherTablesKeepInv(View(), RemovePages(View(), ps));
      pages := pages - ps;
      return |ps|, ps;
    }

    /** drain over the version batches: batches until one comes back short. */
    method DrainVersions(cutoff: Time, batchSize: nat) returns (rows: nat, gone: nat)
      requires Valid() && batchSize > 0
      modifies this`versions, this`chunks
      ensures Valid()
      ensures View() == SweepVersions(old(View()), cutoff)
      ensures rows == |OldVersions(old(View()), cutoff)|
      ensures gone == |ChunksOfVersions(old(View()), OldVersions(old(View()), cutoff))|
    {
      ghost var db := View();
      ghost var done: set<VersionId> := {};
      rows, gone := 0, 0;
      RemoveNothing(db);
      while true
        invariant Valid() && done <= OldVersions(db, cutoff)
        invariant View() == RemoveVersions(db, done)
        invariant rows == |done| && gone == |ChunksOfVersions(db, done)|
        decreases |OldVersions(db, cutoff)| - rows
      {
        var n, c, victims := VersionsBatch(cutoff, batchSize);
        VersionsBatchExtends(db, cutoff, batchSize, done, victims);
        VersionsJoin(db, done, victims);
        VersionChunksJoin(db, done, victims);
        rows, gone, done := rows + n, gone + c, done + victims;
        if n < batchSize { return; }
      }
    }

    method DrainDocs(cutoff: Time, batchSize: nat) returns (rows: nat, gone: nat)
      requires Valid() && batchSize > 0
      modifies this`docs, this`versions, this`chunks
      ensures Valid()
      ensures View() == SweepDocs(old(View()), cutoff)
      ensures rows == |ExpiredDocs(old(View()), cutoff)|
      ensures gone == |ChunksOfDocs(old(View()), ExpiredDocs(old(View()), cutoff))|
    {
      ghost var db := View();
      ghost var done: set<DocId> := {};
      rows, gone := 0, 0;
      RemoveNothing(db);
      while true
        invariant Valid() && done <= ExpiredDocs(db, cutoff)
        invariant View() == RemoveDocs(db, done)
        invariant rows == |done| && gone == |ChunksOfDocs(db, done)|
        decreases |ExpiredDocs(db, cutoff)| - rows
      {
        var n, c, victims := DocsBatch(cutoff, batchSize);
        DocsBatchExtends(db, cutoff, batchSize, done, victims);
        DocsJoin(db, done, victims);
        DocChunksJoin(db, done, victims);
        rows, gone, done := rows + n, gone + c, done + victims;
        if n < batchSize { return; }
      }
    }

    method DrainLogs(cutoff: Time, batchSize: nat) returns (rows: nat)
      requires Valid() && batchSize > 0
      modifies this`logs
      ensures Valid()
      ensures View() == SweepLogs(old(View()), cutoff)
      ensures rows == |OldLogs(old(View()), cutoff)|
    {
      ghost var db := View();
      ghost var done: set<nat> := {};
      rows := 0;
      RemoveNothing(db);
      while true
        invariant Valid() && done <= OldLogs(db, cutoff)
        invariant View() == RemoveLogs(db, done) && rows == |done|
        decreases |OldLogs(db, cutoff)| - rows
      {
        var n, victims := LogsBatch(cutoff, batchSize);
        LogsBatchExtends(db, cutoff, batchSize, done, victims);
        rows, done := rows + n, done + victims;
        if n < batchSize { return; }
      }
    }

    method DrainPages(now: Time, window: Time, batchSize: nat) returns (rows: nat)
      requires Valid() && batchSize > 0
      modifies this`pages
      ensures Valid()
      ensures View() == SweepPages(old(View()), now, window)
      ensures rows == |StalePages(old(View()), now, window)|
    {
      ghost var db := View();
      ghost var done: set<PageKey> := {};
      rows := 0;
      RemoveNothing(db);
      while true
        invariant Valid() && done <= StalePages(db, now, window)
        invariant View() == RemovePages(db, done) && rows == |done|
        decreases |StalePages(db, now, window)| - rows
      {
        var n, victims := PagesBatch(now, window, batchSize);
        PagesBatchExtends(db, now, window, batchSize, done, victims);
        rows, done := rows + n, done + victims;
        if n < batchSize { return; }
      }
    }

    /** An unset window skips the class, which then has nothing stale. */
    method SkipOrDrainPages(now: Time, window: Time, batchSize: nat) returns (rows: nat)
      requires Valid() && batchSize > 0
      modifies this`pages
      ensures Valid()
      ensures View() == SweepPages(old(View()), now, window)
      ensures rows == |StalePages(old(View()), now, window)|
    {
      if window > 0 {
        rows := DrainPages(now, window, batchSize);
      } else {
        NoWindowNoPages(View(), now, window);
        rows := 0;
      }
    }

    /** The first two classes, whose cascades remove chunks. */
    method CollectContents(cut: Cutoffs, batchSize: nat) returns (oldVersions: nat, deletedDocs: nat, gone: nat)
      requires Valid() && batchSize > 0
      modifies this`docs, this`versions, this`chunks
      ensures Valid()
      ensures View() == SweptContents(old(View()), cut)
      ensures oldVersions == |OldVersions(old(View()), cut.versions)|
      ensures deletedDocs == |ExpiredDocs(SweepVersions(old(View()), cut.versions), cut.docs)|
      ensures gone == ChunksReported(old(View()), cut)
    {
      var chunks1, chunks2;
      oldVersions, chunks1 := DrainVersions(cut.versions, batchSize);
      deletedDocs, chunks2 := DrainDocs(cut.docs, batchSize);
      gone := chunks1 + chunks2;
    }

    method CollectGarbage(policy: Policy, now: Time) returns (m: Metrics)
      requires Valid()
      modifies this
      ensures Valid()
      ensures View() == Swept(old(View()), CutoffsOf(WithDefaults(policy), now))
      ensures m == Reported(old(View()), CutoffsOf(WithDefaults(policy), now))
      ensures Collected(old(View()), View(), policy, now)
    {
      ghost var db := View();
      var p := WithDefaults(policy);
      var cut := CutoffsOf(p, now);
      var oldVersions, deletedDocs, gone := CollectContents(cut, p.batchSize);
      ghost var db2 := View();
      var queryLogs := DrainLogs(cut.logs, p.batchSize);
      ghost var db3 := View();
      var crawlPages := SkipOrDrainPages(now, p.crawlPageStale, p.batchSize);
      LogsAndPagesOf(db, db2, db3, cut.logs, now, p.crawlPageStale);
      CollectedExactly(db, policy, now);
      return Metrics(oldVersions, deletedDocs, queryLogs, crawlPages, gone);
    }
  }

  /** The statements of the transaction amount to its atomic step. */
  lemma CommitIs(db: Db, inp: PutInput, now: Time, fd: DocId, fv: VersionId, v: VersionId,
                 docs: map<DocId, Doc>, versions: map<VersionId, Version>, chunks: ChunkTable)
    requires inp.source.Some?
    requires var d := PutDoc(db, inp, fd); docs == db.docs[d := UpsertRow(db, inp, now, d).(current := Some(v))]
    requires match VersionOf(db, PutDoc(db, inp, fd), inp.hash)
      case Some(w) => v == w && versions == db.versions && chunks == db.chunks
      case None =>
        var d := PutDoc(db, inp, fd);
        && v == fv && versions == db.versions[fv := Version(d, inp.hash, inp.content, now)]
        && chunks == db.chunks + NewRows(inp.chunks, d, inp.source.value, fv, now)
    ensures v == PutVersion(db, inp, fd, fv)
    ensures Db(docs, versions, chunks, db.logs, db.pages) == CommitPut(db, inp, now, fd, fv)
  {
  }

  lemma NoWindowNoPages(db: Db, now: Time, window: Time)
    requires window <= 0
    ensures SweepPages(db, now, window) == db && |StalePages(db, now, window)| == 0
  {
    assert StalePages(db, now, window) == {};
    RemoveNothing(db);
  }

  lemma LogsAndPagesOf(db: Db, db2: Db, db3: Db, cutoff: Time, now: Time, window: Time)
    requires db2.logs == db.logs && db3.pages == db.pages
    ensures OldLogs(db2, cutoff) == OldLogs(db, cutoff) && StalePages(db3, now, window) == StalePages(db, now, window)
  {
  }

  lemma SourceChunks(db: Db, source: SourceId)
    requires ChunksSound(db)
    ensures ChunksOfDocs(db, DocsOfSource(db, source)) == set k | k in db.chunks && db.chunks[k].source == source
  {
    forall k | k in db.chunks ensures db.chunks[k].source == source <==> db.chunks[k].doc in DocsOfSource(db, source) {
      assert ChunkSound(db, k);
    }
  }

  lemma SourceCounts(db: Db, source: SourceId)
    requires ChunksSound(db)
    ensures var db' := DeleteSource(db, source);
      && |DocsOfSource(db, source)| == |db.docs| - |db'.docs|
      && |set k | k in db.chunks && db.chunks[k].source == source| == |db.chunks| - |db'.chunks|
      && |PagesOfSource(db, source)| == |db.pages| - |db'.pages|
  {
    SourceChunks(db, source);
    RemoveDocsCounts(db, DocsOfSource(db, source));
    SourcePages(db, source);
  }

  lemma SourcePages(db: Db, source: SourceId)
    ensures DeleteSource(db, source).docs == RemoveDocs(db, DocsOfSource(db, source)).docs
    ensures DeleteSource(db, source).chunks == RemoveDocs(db, DocsOfSource(db, source)).chunks
    ensures |PagesOfSource(db, source)| == |db.pages| - |DeleteSource(db, source).pages|
  {
    MapWithout(db.pages, PagesOfSource(db, source));
  }

  lemma FoundIsVersionOf(db: Db, vs: map<VersionId, Version>, d: DocId, hash: Hash, r: Option<VersionId>)
    requires VersionsSound(db) && vs == db.versions
    requires r.Some? ==> r.value in vs && vs[r.value].doc == d && vs[r.value].hash == hash
    requires r.None? ==> forall v :: v in vs && vs[v].doc == d ==> vs[v].hash != hash
    ensures r == VersionOf(db, d, hash)
  {
    if r.Some? { VersionOfUnique(db, r.value); }
  }

  lemma InsertableNext(cs: seq<ChunkInput>, i: nat)
    requires i < |cs| && Insertable(cs[..i]) && cs[i].body.hash.Some?
    requires forall j :: 0 <= j < i ==> cs[j].position != cs[i].position
    ensures Insertable(cs[..i + 1])
  {
    var before, s := cs[..i], cs[..i + 1];
    forall a, b | 0 <= a < b < |s| ensures s[a].position != s[b].position {
      if b < i { assert before[a].position != before[b].position; }
    }
    forall a | 0 <= a < |s| ensures s[a].body.hash.Some? {
      if a < i { assert before[a].body.hash.Some?; }
    }
  }

  /** A row about to be inserted under a new version collides exactly when the
      input repeats a position. */
  lemma RowTaken(chunks: ChunkTable, cs: seq<ChunkInput>, i: nat, d: DocId, source: SourceId, v: VersionId, now: Time)
    requires (forall k :: k in chunks ==> k.version != v) && i < |cs|
    ensures ChunkKey(v, cs[i].position) in chunks + NewRows(cs[..i], d, source, v, now)
       <==> exists j :: 0 <= j < i && cs[j].position == cs[i].position
  {
    NewRowsAt(cs[..i], d, source, v, now);
    if j :| 0 <= j < i && cs[j].position == cs[i].position { assert cs[..i][j] == cs[j]; }
  }
}
