/** What each transaction of the store writes, column by column, and what it leaves
    alone. */
module StoreWrites {
  import opened Basics
  import opened Rows
  import opened StoreSteps

  // ---- Put -----------------------------------------------------------------------

  /** Every input chunk becomes one row of its own, as given. */
  ghost predicate StoredRows(rows: ChunkTable, cs: seq<ChunkInput>, d: DocId, source: SourceId, v: VersionId,
                             now: Time) {
    && |rows| == |cs|
    && forall i :: 0 <= i < |cs| ==>
         var k := ChunkKey(v, cs[i].position);
         && k in rows && rows[k].doc == d && rows[k].source == source
         && rows[k].body == cs[i].body && rows[k].body.hash.Some? && rows[k].createdAt == now
  }

  lemma LastKeyIsNew(cs: seq<ChunkInput>, rows: ChunkTable, d: DocId, source: SourceId, v: VersionId, now: Time)
    requires Insertable(cs) && cs != [] && rows == NewRows(cs[..|cs| - 1], d, source, v, now)
    ensures ChunkKey(v, cs[|cs| - 1].position) !in rows
  {
    var n := |cs| - 1;
    NewRowsAt(cs[..n], d, source, v, now);
    forall k | k in rows ensures k.position != cs[n].position {
      var i :| 0 <= i < n && RowOf(cs[..n][i], k, rows[k], d, source, now);
      assert cs[i] == cs[..n][i];
    }
  }

  lemma {:induction false} NewRowsStored(cs: seq<ChunkInput>, d: DocId, source: SourceId, v: VersionId, now: Time)
    requires Insertable(cs)
    ensures StoredRows(NewRows(cs, d, source, v, now), cs, d, source, v, now)
  {
    if cs != [] {
      var n := |cs| - 1;
      var init := cs[..n];
      var rows := NewRows(init, d, source, v, now);
      NewRowsStored(init, d, source, v, now);
      LastKeyIsNew(cs, rows, d, source, v, now);
      forall i | 0 <= i < n ensures cs[i] == init[i] && cs[i].position != cs[n].position {}
    }
  }

  /** A changed Put: the document carries the input's attributes, seen now, first seen
      when it first was. */
  lemma CommitWritesDoc(db: Db, inp: PutInput, now: Time, fd: DocId, fv: VersionId)
    requires Inv(db) && Enabled(db, PutCommit(inp, now, fd, fv))
    ensures var db', d := CommitPut(db, inp, now, fd, fv), PutDoc(db, inp, fd);
      && d in db'.docs
      && var row := db'.docs[d];
      && row.key == KeyOf(inp) && row.attrs == inp.attrs && row.status == Active
      && row.current == Some(PutVersion(db, inp, fd, fv)) && row.lastSeen == now
      && row.firstSeen == (if d in db.docs then db.docs[d].firstSeen else now)
      && row.deletedAt == (if d in db.docs then db.docs[d].deletedAt else None)
  {
    CommitTarget(db, inp, now, fd, fv);
  }

  /** A new version carries the input's hash and content, dated now; a reused one stays
      as it was. */
  lemma CommitWritesVersion(db: Db, inp: PutInput, now: Time, fd: DocId, fv: VersionId)
    requires Inv(db) && Enabled(db, PutCommit(inp, now, fd, fv))
    ensures var db', v := CommitPut(db, inp, now, fd, fv), PutVersion(db, inp, fd, fv);
      && v in db'.versions
      && (v in db.versions ==> db'.versions == db.versions && db'.chunks == db.chunks)
      && (v !in db.versions ==>
            && db'.versions[v].doc == PutDoc(db, inp, fd) && db'.versions[v].hash == inp.hash
            && db'.versions[v].content == inp.content && db'.versions[v].createdAt == now)
  {
    CommitTarget(db, inp, now, fd, fv);
  }

  /** And a new version gets the input's chunks, one row each, exactly. */
  lemma CommitWritesChunks(db: Db, inp: PutInput, now: Time, fd: DocId, fv: VersionId)
    requires Inv(db) && Enabled(db, PutCommit(inp, now, fd, fv)) && PutVersion(db, inp, fd, fv) !in db.versions
    ensures var db' := CommitPut(db, inp, now, fd, fv);
      StoredRows(db'.chunks - db.chunks.Keys, inp.chunks,
                 PutDoc(db, inp, fd), inp.source.value, PutVersion(db, inp, fd, fv), now)
  {
    CommitTarget(db, inp, now, fd, fv);
    var d, v := PutDoc(db, inp, fd), PutVersion(db, inp, fd, fv);
    var rows := NewRows(inp.chunks, d, inp.source.value, v, now);
    NewRowsStored(inp.chunks, d, inp.source.value, v, now);
    NewRowsAt(inp.chunks, d, inp.source.value, v, now);
    forall k | k in db.chunks ensures k.version != v { assert ChunkSound(db, k); }
    OnlyAdded(db.chunks, rows);
  }

  lemma OnlyAdded(t: ChunkTable, rows: ChunkTable)
    requires forall k :: k in rows ==> k !in t
    ensures (t + rows) - t.Keys == rows
  {
  }

  /** And what it leaves alone: every other document, every version that was there, */
  lemma CommitSparesRows(db: Db, inp: PutInput, now: Time, fd: DocId, fv: VersionId)
    requires Inv(db) && Enabled(db, PutCommit(inp, now, fd, fv))
    ensures var db', d, v := CommitPut(db, inp, now, fd, fv), PutDoc(db, inp, fd), PutVersion(db, inp, fd, fv);
      && db'.docs.Keys == db.docs.Keys + {d} && (forall e :: e in db.docs && e != d ==> db'.docs[e] == db.docs[e])
      && db'.versions.Keys == db.versions.Keys + {v}
      && (forall w :: w in db.versions ==> db'.versions[w] == db.versions[w])
  {
    CommitTarget(db, inp, now, fd, fv);
  }

  /** every chunk that was there, and the other tables. */
  lemma CommitSparesChunks(db: Db, inp: PutInput, now: Time, fd: DocId, fv: VersionId)
    requires Inv(db) && Enabled(db, PutCommit(inp, now, fd, fv))
    ensures var db' := CommitPut(db, inp, now, fd, fv);
      && (forall k :: k in db.chunks ==> k in db'.chunks && db'.chunks[k] == db.chunks[k])
      && db'.logs == db.logs && db'.pages == db.pages
  {
    var v := PutVersion(db, inp, fd, fv);
    if v !in db.versions {
      CommitTarget(db, inp, now, fd, fv);
      NewRowsAt(inp.chunks, PutDoc(db, inp, fd), inp.source.value, v, now);
      forall k | k in db.chunks ensures k.version in db.versions { assert ChunkSound(db, k); }
    } else {
      CommitWritesVersion(db, inp, now, fd, fv);
    }
  }

  // ---- The one-row updates -----------------------------------------------------------

  /** Everything but one document row is as before. */
  ghost predicate OnlyDoc(db: Db, db': Db, d: DocId) {
    && db'.docs.Keys == db.docs.Keys && (forall e :: e in db.docs && e != d ==> db'.docs[e] == db.docs[e])
    && db'.versions == db.versions && db'.chunks == db.chunks && db'.logs == db.logs && db'.pages == db.pages
  }

  /** The identity, history and content of a row. */
  ghost predicate SameBeside(a: Doc, b: Doc) {
    a.key == b.key && a.attrs == b.attrs && a.current == b.current && a.firstSeen == b.firstSeen
  }

  /** An unchanged Put moves last_seen_at alone. */
  lemma PutTouchWrites(db: Db, d: DocId, now: Time)
    requires d in db.docs
    ensures var db' := TouchRow(db, d, now);
      && OnlyDoc(db, db', d) && SameBeside(db'.docs[d], db.docs[d]) && db'.docs[d].lastSeen == now
      && db'.docs[d].status == db.docs[d].status && db'.docs[d].deletedAt == db.docs[d].deletedAt
  {
  }

  /** A touch that hits also revives and clears deleted_at; one that misses writes
      nothing. */
  lemma TouchWrites(db: Db, key: Key, hash: Hash, now: Time)
    ensures var db', u := TouchIfUnchanged(db, key, hash, now), Unchanged(db, key, hash);
      && (u.None? ==> db' == db)
      && (u.Some? ==>
            var d := u.value;
            && d in db.docs && db.docs[d].key == key && OnlyDoc(db, db', d) && SameBeside(db'.docs[d], db.docs[d])
            && db'.docs[d].lastSeen == now && db'.docs[d].status == Active && db'.docs[d].deletedAt == None)
  {
  }

  /** A delete stamps an active document once, and nothing else. */
  lemma DeleteWrites(db: Db, d: DocId, now: Time)
    requires d in db.docs
    ensures var db' := SoftDelete(db, d, now);
      && OnlyDoc(db, db', d) && SameBeside(db'.docs[d], db.docs[d]) && db'.docs[d].lastSeen == db.docs[d].lastSeen
      && db'.docs[d].status == Deleted
      && db'.docs[d].deletedAt == (if db.docs[d].status == Active then Some(now) else db.docs[d].deletedAt)
  {
  }

  /** The closing sweep of a sync stamps each document it turns off. */
  lemma SweepWrites(db: Db, source: SourceId, startedAt: Time, now: Time, d: DocId)
    requires d in db.docs
    ensures var db' := SoftDeleteUnseen(db, source, startedAt, now);
      && d in db'.docs && SameBeside(db'.docs[d], db.docs[d]) && db'.docs[d].lastSeen == db.docs[d].lastSeen
      && (if db.docs[d].key.source == source && db.docs[d].lastSeen < startedAt && db.docs[d].status == Active
          then db'.docs[d].status == Deleted && db'.docs[d].deletedAt == Some(now)
          else db'.docs[d] == db.docs[d])
  {
  }

  /** Deleting a source takes its documents with their versions and chunks, and its
      pages, and nothing else. */
  lemma DeleteSourceTakes(db: Db, source: SourceId)
    requires Inv(db)
    ensures var db' := DeleteSource(db, source);
      && (forall d :: d in db'.docs <==> d in db.docs && db.docs[d].key.source != source)
      && (forall v :: v in db'.versions <==> v in db.versions && db.versions[v].doc in db'.docs)
      && (forall k :: k in db'.chunks <==> k in db.chunks && db.chunks[k].source != source)
      && (forall p :: p in db'.pages <==> p in db.pages && p.source != source)
      && (forall d :: d in db'.docs ==> db'.docs[d] == db.docs[d])
      && (forall v :: v in db'.versions ==> db'.versions[v] == db.versions[v])
      && (forall k :: k in db'.chunks ==> db'.chunks[k] == db.chunks[k])
      && (forall p :: p in db'.pages ==> db'.pages[p] == db.pages[p])
      && db'.logs == db.logs
  {
    forall v | v in db.versions ensures db.versions[v].doc in db.docs { assert HasDoc(db, v); }
    forall k | k in db.chunks
      ensures && k.version in db.versions && db.versions[k.version].doc == db.chunks[k].doc
              && db.chunks[k].doc in db.docs && db.chunks[k].source == db.docs[db.chunks[k].doc].key.source
    {
      assert ChunkSound(db, k);
    }
  }
}
