/** The document store's transactions, each as one atomic step on the tables,
    and the proof that every step keeps the invariant. */
module StoreSteps {
  import opened Basics
  import opened Rows

  datatype ChunkInput = ChunkInput(position: int, body: ChunkBody)

  /** `source` is None when the caller's text is not a UUID. */
  datatype PutInput = PutInput(
    source: Option<SourceId>, external: string, attrs: Attrs,
    hash: Hash, content: string, chunks: seq<ChunkInput>)

  datatype PutError =
    | MissingExternal | BadSource | MissingHash
    | MissingEmbedding(chunk: nat) | MissingModel(chunk: nat)
    | ConstraintViolated   // not null or unique (version_id, position): the transaction rolls back

  datatype PutResult = Refused(error: PutError) | Stored(doc: DocId, version: VersionId, changed: bool)

  ghost function WithDoc(db: Db, d: DocId, row: Doc): Db {
    db.(docs := db.docs[d := row])
  }

  /** A new version with its rows, and its document repointed at it. */
  ghost function InsertVersion(db: Db, d: DocId, row: Doc, v: VersionId, version: Version, rows: ChunkTable): Db {
    db.(docs := db.docs[d := row], versions := db.versions[v := version], chunks := db.chunks + rows)
  }

  // ---- Put -----------------------------------------------------------------

  ghost predicate ChunkReady(c: ChunkInput) {
    c.body.embedding != [] && c.body.model != ""
  }

  ghost predicate ValidPut(inp: PutInput) {
    inp.external != "" && inp.source.Some? && inp.hash != [] && forall c :: c in inp.chunks ==> ChunkReady(c)
  }

  function KeyOf(inp: PutInput): Key
    requires inp.source.Some?
  {
    Key(inp.source.value, inp.external)
  }

  /** The document and current version that make a Put of `hash` an unchanged one. */
  ghost function Unchanged(db: Db, key: Key, hash: Hash): Option<DocId> {
    match DocOf(db, key)
    case None => None
    case Some(d) =>
      var cur := db.docs[d].current;
      if cur.Some? && cur.value in db.versions && db.versions[cur.value].hash == hash then Some(d) else None
  }

  /** update documents set last_seen_at = now() where id = d */
  ghost function TouchRow(db: Db, d: DocId, now: Time): Db {
    if d in db.docs then WithDoc(db, d, db.docs[d].(lastSeen := now)) else db
  }

  predicate Insertable(cs: seq<ChunkInput>) {
    && (forall i :: 0 <= i < |cs| ==> cs[i].body.hash.Some?)
    && (forall i, j :: 0 <= i < j < |cs| ==> cs[i].position != cs[j].position)
  }

  ghost function NewRows(cs: seq<ChunkInput>, d: DocId, source: SourceId, v: VersionId, now: Time): ChunkTable {
    if cs == [] then map[]
    else
      var c := cs[|cs| - 1];
      NewRows(cs[..|cs| - 1], d, source, v, now)[ChunkKey(v, c.position) := Chunk(d, source, c.body, now)]
  }

  ghost function PutDoc(db: Db, inp: PutInput, freshDoc: DocId): DocId
    requires inp.source.Some?
  {
    match DocOf(db, KeyOf(inp)) case Some(d) => d case None => freshDoc
  }

  ghost function PutVersion(db: Db, inp: PutInput, freshDoc: DocId, freshVersion: VersionId): VersionId
    requires inp.source.Some?
  {
    match VersionOf(db, PutDoc(db, inp, freshDoc), inp.hash) case Some(v) => v case None => freshVersion
  }

  ghost predicate Reuses(db: Db, inp: PutInput, freshDoc: DocId)
    requires inp.source.Some?
  {
    VersionOf(db, PutDoc(db, inp, freshDoc), inp.hash).Some?
  }

  /** insert ... on conflict do update: a changed document is reactivated and
      touched; deleted_at is left as it was. */
  ghost function UpsertRow(db: Db, inp: PutInput, now: Time, d: DocId): Doc
    requires inp.source.Some?
  {
    if d in db.docs then db.docs[d].(attrs := inp.attrs, status := Active, lastSeen := now)
    else Doc(KeyOf(inp), inp.attrs, Active, None, now, now, None)
  }

  /** The commit transaction: upsert the identity, reuse or insert the version
      with its chunks, and point current_version at it. */
  ghost function CommitPut(db: Db, inp: PutInput, now: Time, freshDoc: DocId, freshVersion: VersionId): Db
    requires inp.source.Some?
  {
    var d := PutDoc(db, inp, freshDoc);
    var v := PutVersion(db, inp, freshDoc, freshVersion);
    var row := UpsertRow(db, inp, now, d).(current := Some(v));
    if Reuses(db, inp, freshDoc) then WithDoc(db, d, row)
    else InsertVersion(db, d, row, v, Version(d, inp.hash, inp.content, now),
                       NewRows(inp.chunks, d, inp.source.value, v, now))
  }

  /** Unused identifiers, as gen_random_uuid() supplies them. */
  ghost predicate Fresh(db: Db, freshDoc: DocId, freshVersion: VersionId) {
    freshDoc !in db.docs && freshVersion !in db.versions
  }

  // ---- Sync statements -----------------------------------------------------

  /** TouchIfUnchanged: touch, reactivate and clear deleted_at in one statement. */
  ghost function TouchIfUnchanged(db: Db, key: Key, hash: Hash, now: Time): Db {
    match Unchanged(db, key, hash)
    case None => db
    case Some(d) => WithDoc(db, d, db.docs[d].(lastSeen := now, status := Active, deletedAt := None))
  }

  ghost function SoftDelete(db: Db, d: DocId, now: Time): Db {
    if d in db.docs && db.docs[d].status != Deleted
    then WithDoc(db, d, db.docs[d].(status := Deleted, deletedAt := Some(now)))
    else db
  }

  /** Documents a full sync of `source` begun at `startedAt` has not seen. */
  function UnseenDocs(db: Db, source: SourceId, startedAt: Time): set<DocId> {
    set d | d in db.docs && db.docs[d].key.source == source
         && db.docs[d].lastSeen < startedAt && db.docs[d].status != Deleted
  }

  ghost function SoftDeleteUnseen(db: Db, source: SourceId, startedAt: Time, now: Time): Db {
    var victims := UnseenDocs(db, source, startedAt);
    db.(docs := map d | d in db.docs ::
      if d in victims then db.docs[d].(status := Deleted, deletedAt := Some(now)) else db.docs[d])
  }

  // ---- Deletes with their cascades ----------------------------------------

  function ChunksOfVersions(db: Db, vs: set<VersionId>): set<ChunkKey> {
    set k | k in db.chunks && k.version in vs
  }

  function ChunksOfDocs(db: Db, ds: set<DocId>): set<ChunkKey> {
    set k | k in db.chunks && db.chunks[k].doc in ds
  }

  function VersionsOfDocs(db: Db, ds: set<DocId>): set<VersionId> {
    set v | v in db.versions && db.versions[v].doc in ds
  }

  /** chunks.version_id is on delete cascade. */
  function RemoveVersions(db: Db, vs: set<VersionId>): Db {
    db.(versions := db.versions - vs, chunks := db.chunks - ChunksOfVersions(db, vs))
  }

  /** Deleting documents takes their versions, and the chunks of either. */
  function RemoveDocs(db: Db, ds: set<DocId>): Db {
    var vs := VersionsOfDocs(db, ds);
    db.(docs := db.docs - ds,
        versions := db.versions - vs,
        chunks := db.chunks - (ChunksOfVersions(db, vs) + ChunksOfDocs(db, ds)))
  }

  function RemoveLogs(db: Db, ls: set<nat>): Db {
    db.(logs := db.logs - ls)
  }

  function RemovePages(db: Db, ps: set<PageKey>): Db {
    db.(pages := db.pages - ps)
  }

  function DocsOfSource(db: Db, source: SourceId): set<DocId> {
    set d | d in db.docs && db.docs[d].key.source == source
  }

  function PagesOfSource(db: Db, source: SourceId): set<PageKey> {
    set p | p in db.pages && p.source == source
  }

  ghost function DeleteSource(db: Db, source: SourceId): Db {
    RemovePages(RemoveDocs(db, DocsOfSource(db, source)), PagesOfSource(db, source))
  }

  // ---- Retention eligibility ----------------------------------------------

  function OldVersions(db: Db, cutoff: Time): set<VersionId> {
    set v | v in db.versions && db.versions[v].createdAt < cutoff
         && forall d :: d in db.docs ==> db.docs[d].current != Some(v)
  }

  function ExpiredDocs(db: Db, cutoff: Time): set<DocId> {
    set d | d in db.docs && db.docs[d].status == Deleted
         && db.docs[d].deletedAt.Some? && db.docs[d].deletedAt.value < cutoff
  }

  function OldLogs(db: Db, cutoff: Time): set<nat> {
    set l | l in db.logs && db.logs[l] < cutoff
  }

  /** A window of zero or less leaves the class out of the sweep. */
  function StalePages(db: Db, now: Time, window: Time): set<PageKey> {
    set p | p in db.pages && window > 0 && db.pages[p].Some? && db.pages[p].value < now - window
  }

  // ---- Runs of interleaved steps -------------------------------------------

  /** One committed transaction. Put contributes two kinds, because its lookup
      runs before and outside the transaction that acts on it. */
  datatype Step =
    | PutTouch(doc: DocId, now: Time)
    | PutCommit(inp: PutInput, now: Time, freshDoc: DocId, freshVersion: VersionId)
    | Touch(key: Key, hash: Hash, now: Time)
    | Delete(doc: DocId, now: Time)
    | Sweep(source: SourceId, startedAt: Time, now: Time)
    | GcVersions(cutoff: Time, victims: set<VersionId>)
    | GcDocs(cutoff: Time, docVictims: set<DocId>)
    | GcLogs(logVictims: set<nat>)
    | GcPages(pageVictims: set<PageKey>)
    | DropSource(source: SourceId)

  ghost predicate Enabled(db: Db, s: Step) {
    match s
    case PutCommit(inp, now, fd, fv) =>
      && ValidPut(inp) && Fresh(db, fd, fv)
      && (Reuses(db, inp, fd) || Insertable(inp.chunks))
    case GcVersions(cutoff, victims) => victims <= OldVersions(db, cutoff)
    case GcDocs(cutoff, victims) => victims <= ExpiredDocs(db, cutoff)
    case _ => true
  }

  ghost function Apply(db: Db, s: Step): Db
    requires Enabled(db, s)
  {
    match s
    case PutTouch(d, now) => TouchRow(db, d, now)
    case PutCommit(inp, now, fd, fv) => CommitPut(db, inp, now, fd, fv)
    case Touch(key, hash, now) => TouchIfUnchanged(db, key, hash, now)
    case Delete(d, now) => SoftDelete(db, d, now)
    case Sweep(source, startedAt, now) => SoftDeleteUnseen(db, source, startedAt, now)
    case GcVersions(_, victims) => RemoveVersions(db, victims)
    case GcDocs(_, victims) => RemoveDocs(db, victims)
    case GcLogs(ls) => RemoveLogs(db, ls)
    case GcPages(ps) => RemovePages(db, ps)
    case DropSource(source) => DeleteSource(db, source)
  }

  ghost predicate Runs(db: Db, steps: seq<Step>)
    decreases |steps|
  {
    steps == [] || (Enabled(db, steps[0]) && Runs(Apply(db, steps[0]), steps[1..]))
  }

  ghost function After(db: Db, steps: seq<Step>): Db
    requires Runs(db, steps)
    decreases |steps|
  {
    if steps == [] then db else After(Apply(db, steps[0]), steps[1..])
  }

  ghost const EmptyDb := Db(map[], map[], map[], map[], map[])

  // ---- The invariant is kept -----------------------------------------------

  ghost predicate RowOf(c: ChunkInput, k: ChunkKey, row: Chunk, d: DocId, source: SourceId, now: Time) {
    c.position == k.position && row == Chunk(d, source, c.body, now)
  }

  lemma {:induction false} NewRowsAt(cs: seq<ChunkInput>, d: DocId, source: SourceId, v: VersionId, now: Time)
    ensures forall k :: k in NewRows(cs, d, source, v, now) ==>
      && k.version == v
      && exists i {:trigger cs[i]} ::
           0 <= i < |cs| && RowOf(cs[i], k, NewRows(cs, d, source, v, now)[k], d, source, now)
    ensures forall i :: 0 <= i < |cs| ==> ChunkKey(v, cs[i].position) in NewRows(cs, d, source, v, now)
  {
    if cs != [] {
      var n := |cs| - 1;
      NewRowsAt(cs[..n], d, source, v, now);
      forall k | k in NewRows(cs, d, source, v, now)
        ensures k.version == v
        ensures exists i {:trigger cs[i]} ::
          0 <= i < |cs| && RowOf(cs[i], k, NewRows(cs, d, source, v, now)[k], d, source, now)
      {
        if k == ChunkKey(v, cs[n].position) {
          assert RowOf(cs[n], k, NewRows(cs, d, source, v, now)[k], d, source, now);
        } else {
          var i :| 0 <= i < n && RowOf(cs[..n][i], k, NewRows(cs[..n], d, source, v, now)[k], d, source, now);
          assert cs[i] == cs[..n][i];
        }
      }
      forall i | 0 <= i < |cs| ensures ChunkKey(v, cs[i].position) in NewRows(cs, d, source, v, now) {
        if i < n { assert cs[i] == cs[..n][i]; }
      }
    }
  }

  /** The identity and version a commit settles on. */
  lemma CommitTarget(db: Db, inp: PutInput, now: Time, fd: DocId, fv: VersionId)
    requires Inv(db) && Enabled(db, PutCommit(inp, now, fd, fv))
    ensures var d, v := PutDoc(db, inp, fd), PutVersion(db, inp, fd, fv);
      && (d in db.docs ==> db.docs[d].key == KeyOf(inp))
      && (d !in db.docs ==> d == fd)
      && (forall e :: e in db.docs && db.docs[e].key == KeyOf(inp) ==> e == d)
      && (v in db.versions <==> Reuses(db, inp, fd))
      && (v in db.versions ==> d in db.docs && db.versions[v].doc == d && db.versions[v].hash == inp.hash)
      && (v !in db.versions ==>
            && v == fv
            && forall w :: w in db.versions && db.versions[w].doc == d ==> db.versions[w].hash != inp.hash)
  {
    var d, v := PutDoc(db, inp, fd), PutVersion(db, inp, fd, fv);
    forall e | e in db.docs && db.docs[e].key == KeyOf(inp) ensures e == d {
      assert DocOf(db, KeyOf(inp)).Some?;
      assert SameKey(db, e, d);
    }
    if v in db.versions { assert HasDoc(db, v); }
  }

  /** Only document rows change, none moves its key, and each still points at
      a version of its own. */
  ghost predicate DocsRewritten(db: Db, db': Db) {
    && db'.versions == db.versions && db'.chunks == db.chunks
    && (forall d :: d in db'.docs <==> d in db.docs)
    && (forall d :: d in db'.docs ==>
          && db'.docs[d].key == db.docs[d].key
          && OwnVersion(db, d, db'.docs[d].current)
          && (db'.docs[d].status == Deleted ==> db'.docs[d].deletedAt.Some?))
  }

  lemma RewriteKeepsInv(db: Db, db': Db)
    requires Inv(db) && DocsRewritten(db, db')
    ensures Inv(db')
  {
    forall d, e | SameKey(db', d, e) ensures d == e { assert SameKey(db, d, e); }
    forall v | v in db'.versions ensures HasDoc(db', v) { assert HasDoc(db, v); }
    forall v, w | SameContent(db', v, w) ensures v == w { assert SameContent(db, v, w); }
    forall d | d in db'.docs ensures OwnsCurrent(db', d) && Stamped(db', d) {}
    forall k | k in db'.chunks ensures ChunkSound(db', k) { assert ChunkSound(db, k); }
  }

  lemma WithDocKeepsInv(db: Db, d: DocId, row: Doc)
    requires Inv(db) && d in db.docs && row.key == db.docs[d].key
    requires OwnVersion(db, d, row.current) && (row.status == Deleted ==> row.deletedAt.Some?)
    ensures Inv(WithDoc(db, d, row))
  {
    var db' := WithDoc(db, d, row);
    forall e | e in db'.docs && e != d
      ensures OwnVersion(db, e, db'.docs[e].current) && (db'.docs[e].status == Deleted ==> db'.docs[e].deletedAt.Some?)
    {
      assert OwnsCurrent(db, e) && Stamped(db, e);
    }
    RewriteKeepsInv(db, db');
  }

  lemma InsertKeepsInv(db: Db, d: DocId, row: Doc, v: VersionId, version: Version, rows: ChunkTable)
    requires Inv(db) && row.status == Active && row.current == Some(v) && version.doc == d && v !in db.versions
    requires forall e :: e in db.docs && db.docs[e].key == row.key ==> e == d
    requires d in db.docs ==> db.docs[d].key == row.key
    requires forall w :: w in db.versions && db.versions[w].doc == d ==> db.versions[w].hash != version.hash
    requires forall k :: k in rows ==> k.version == v && rows[k].doc == d && rows[k].source == row.key.source
    ensures Inv(InsertVersion(db, d, row, v, version, rows))
  {
    var db' := InsertVersion(db, d, row, v, version, rows);
    forall a, b | SameKey(db', a, b) ensures a == b {
      if a != d && b != d { assert SameKey(db, a, b); }
    }
    forall w | w in db'.versions ensures HasDoc(db', w) {
      if w != v { assert HasDoc(db, w); }
    }
    forall a, b | SameContent(db', a, b) ensures a == b {
      if a != v && b != v { assert SameContent(db, a, b); }
    }
    forall e | e in db'.docs ensures OwnsCurrent(db', e) && Stamped(db', e) {
      if e != d { assert OwnsCurrent(db, e) && Stamped(db, e); }
    }
    forall k | k in db'.chunks ensures ChunkSound(db', k) {
      if k !in rows { assert ChunkSound(db, k); }
    }
  }

  lemma CommitPutKeepsInv(db: Db, inp: PutInput, now: Time, fd: DocId, fv: VersionId)
    requires Inv(db) && Enabled(db, PutCommit(inp, now, fd, fv))
    ensures Inv(CommitPut(db, inp, now, fd, fv))
  {
    CommitTarget(db, inp, now, fd, fv);
    var d, v := PutDoc(db, inp, fd), PutVersion(db, inp, fd, fv);
    var row := CommitPut(db, inp, now, fd, fv).docs[d];
    if Reuses(db, inp, fd) {
      WithDocKeepsInv(db, d, row);
    } else {
      NewRowsAt(inp.chunks, d, inp.source.value, v, now);
      InsertKeepsInv(db, d, row, v, Version(d, inp.hash, inp.content, now),
                     NewRows(inp.chunks, d, inp.source.value, v, now));
    }
  }

  /** Deleting rows keeps the invariant when nothing left behind refers to them. */
  lemma ShrinkKeepsInv(db: Db, db': Db)
    requires Inv(db)
    requires forall d :: d in db'.docs ==> d in db.docs && db'.docs[d] == db.docs[d]
    requires forall v :: v in db'.versions ==> v in db.versions && db'.versions[v] == db.versions[v]
    requires forall k :: k in db'.chunks ==>
      k in db.chunks && db'.chunks[k] == db.chunks[k] && k.version in db'.versions
    requires forall v :: v in db'.versions ==> db'.versions[v].doc in db'.docs
    requires forall d :: d in db'.docs && db'.docs[d].current.Some? ==> db'.docs[d].current.value in db'.versions
    ensures Inv(db')
  {
    forall d, e | SameKey(db', d, e) ensures d == e { assert SameKey(db, d, e); }
    forall v | v in db'.versions ensures HasDoc(db', v) {}
    forall v, w | SameContent(db', v, w) ensures v == w { assert SameContent(db, v, w); }
    forall d | d in db'.docs
      ensures OwnsCurrent(db', d) && Stamped(db', d)
    {
      assert OwnsCurrent(db, d) && Stamped(db, d);
    }
    forall k | k in db'.chunks ensures ChunkSound(db', k) { assert ChunkSound(db, k); }
  }

  lemma RemoveVersionsKeepsInv(db: Db, cutoff: Time, victims: set<VersionId>)
    requires Inv(db) && victims <= OldVersions(db, cutoff)
    ensures Inv(RemoveVersions(db, victims))
  {
    var db' := RemoveVersions(db, victims);
    forall d | d in db'.docs && db'.docs[d].current.Some? ensures db'.docs[d].current.value in db'.versions {
      assert OwnsCurrent(db, d);
      assert db.docs[d].current.value !in OldVersions(db, cutoff);
    }
    forall v | v in db'.versions ensures db'.versions[v].doc in db'.docs { assert HasDoc(db, v); }
    forall k | k in db'.chunks ensures k.version in db'.versions { assert ChunkSound(db, k); }
    ShrinkKeepsInv(db, db');
  }

  lemma RemoveDocsKeepsInv(db: Db, ds: set<DocId>)
    requires Inv(db)
    ensures Inv(RemoveDocs(db, ds))
  {
    var db' := RemoveDocs(db, ds);
    forall d | d in db'.docs && db'.docs[d].current.Some?
      ensures db'.docs[d].current.value in db'.versions
    {
      assert OwnsCurrent(db, d);
    }
    forall v | v in db'.versions ensures db'.versions[v].doc in db'.docs { assert HasDoc(db, v); }
    forall k | k in db'.chunks ensures k.version in db'.versions { assert ChunkSound(db, k); }
    ShrinkKeepsInv(db, db');
  }

  lemma TouchRowKeepsInv(db: Db, d: DocId, now: Time)
    requires Inv(db)
    ensures Inv(TouchRow(db, d, now))
  {
    if d in db.docs {
      assert OwnsCurrent(db, d) && Stamped(db, d);
      WithDocKeepsInv(db, d, db.docs[d].(lastSeen := now));
    }
  }

  lemma TouchIfUnchangedKeepsInv(db: Db, key: Key, hash: Hash, now: Time)
    requires Inv(db)
    ensures Inv(TouchIfUnchanged(db, key, hash, now))
  {
    var u := Unchanged(db, key, hash);
    if u.Some? {
      assert OwnsCurrent(db, u.value);
      WithDocKeepsInv(db, u.value, db.docs[u.value].(lastSeen := now, status := Active, deletedAt := None));
    }
  }

  lemma SoftDeleteKeepsInv(db: Db, d: DocId, now: Time)
    requires Inv(db)
    ensures Inv(SoftDelete(db, d, now))
  {
    if d in db.docs && db.docs[d].status != Deleted {
      assert OwnsCurrent(db, d);
      WithDocKeepsInv(db, d, db.docs[d].(status := Deleted, deletedAt := Some(now)));
    }
  }

  lemma SweepKeepsInv(db: Db, source: SourceId, startedAt: Time, now: Time)
    requires Inv(db)
    ensures Inv(SoftDeleteUnseen(db, source, startedAt, now))
  {
    forall d | d in db.docs ensures OwnVersion(db, d, db.docs[d].current) && Stamped(db, d) {
      assert OwnsCurrent(db, d) && Stamped(db, d);
    }
    RewriteKeepsInv(db, SoftDeleteUnseen(db, source, startedAt, now));
  }

  lemma OtherTablesKeepInv(db: Db, db': Db)
    requires Inv(db) && db'.docs == db.docs && db'.versions == db.versions && db'.chunks == db.chunks
    ensures Inv(db')
  {
    forall d | d in db.docs ensures OwnVersion(db, d, db.docs[d].current) && Stamped(db, d) {
      assert OwnsCurrent(db, d) && Stamped(db, d);
    }
    RewriteKeepsInv(db, db');
  }

  /** Every transaction of the store, with any arguments, keeps the invariant. */
  lemma StepKeepsInv(db: Db, s: Step)
    requires Inv(db) && Enabled(db, s)
    ensures Inv(Apply(db, s))
  {
    match s
    case PutCommit(inp, now, fd, fv) => CommitPutKeepsInv(db, inp, now, fd, fv);
    case GcVersions(cutoff, victims) => RemoveVersionsKeepsInv(db, cutoff, victims);
    case GcDocs(_, victims) => RemoveDocsKeepsInv(db, victims);
    case DropSource(source) =>
      RemoveDocsKeepsInv(db, DocsOfSource(db, source));
      OtherTablesKeepInv(RemoveDocs(db, DocsOfSource(db, source)), DeleteSource(db, source));
    case GcLogs(ls) => OtherTablesKeepInv(db, RemoveLogs(db, ls));
    case GcPages(ps) => OtherTablesKeepInv(db, RemovePages(db, ps));
    case PutTouch(d, now) => TouchRowKeepsInv(db, d, now);
    case Touch(key, hash, now) => TouchIfUnchangedKeepsInv(db, key, hash, now);
    case Delete(d, now) => SoftDeleteKeepsInv(db, d, now);
    case Sweep(source, startedAt, now) => SweepKeepsInv(db, source, startedAt, now);
  }

  /** Over every run of interleaved transactions, from any state that keeps it. */
  lemma {:induction false} RunKeepsInv(db: Db, steps: seq<Step>)
    requires Inv(db) && Runs(db, steps)
    ensures Inv(After(db, steps))
    decreases |steps|
  {
    if steps != [] {
      StepKeepsInv(db, steps[0]);
      RunKeepsInv(Apply(db, steps[0]), steps[1..]);
    }
  }

  /** The headline form: each active document has an existing current version
      that is its own, each chunk's version belongs to the chunk's document,
      and (document, hash) names at most one version. */
  lemma ReachableStates(steps: seq<Step>)
    requires Runs(EmptyDb, steps)
    ensures var db := After(EmptyDb, steps);
      && (forall d :: d in db.docs && db.docs[d].status == Active ==>
            db.docs[d].current.Some? && db.docs[d].current.value in db.versions
            && db.versions[db.docs[d].current.value].doc == d)
      && (forall k :: k in db.chunks ==>
            k.version in db.versions && db.versions[k.version].doc == db.chunks[k].doc)
      && (forall v, w | v in db.versions && w in db.versions ::
            db.versions[v].doc == db.versions[w].doc && db.versions[v].hash == db.versions[w].hash ==> v == w)
      && (forall d :: d in db.docs && db.docs[d].status == Deleted ==> db.docs[d].deletedAt.Some?)
  {
    RunKeepsInv(EmptyDb, steps);
    var db := After(EmptyDb, steps);
    forall d | d in db.docs ensures OwnsCurrent(db, d) {}
    forall k | k in db.chunks ensures ChunkSound(db, k) {}
    forall v, w | v in db.versions && w in db.versions && db.versions[v].doc == db.versions[w].doc
                  && db.versions[v].hash == db.versions[w].hash
      ensures v == w
    {
      assert SameContent(db, v, w);
    }
    forall d | d in db.docs ensures Stamped(db, d) {}
  }
}
