/** The tenant database as values: one map per table, and the constraints that
    every transaction of the document store has to keep. */
module Rows {
  import opened Basics

  type SourceId = nat
  type DocId = nat
  type VersionId = nat
  type Hash = seq<bv8>

  datatype Key = Key(source: SourceId, external: string)

  datatype Status = Active | Deleted

  /** The document-level columns a changed Put overwrites. */
  datatype Attrs = Attrs(title: Option<string>, uri: Option<string>, mime: Option<string>, metadata: string)

  datatype Doc = Doc(
    key: Key, attrs: Attrs, status: Status, current: Option<VersionId>,
    firstSeen: Time, lastSeen: Time, deletedAt: Option<Time>)

  datatype Version = Version(doc: DocId, hash: Hash, content: string, createdAt: Time)

  /** What the pipeline supplies for one chunk; `hash` is the chunk-level drift key. */
  datatype ChunkBody = ChunkBody(
    headingPath: seq<string>, content: string, tokenCount: int,
    embedding: seq<real>, model: string, hash: Option<Hash>, metadata: string)

  /** The schema's unique (version_id, position) identifies a chunk row. */
  datatype ChunkKey = ChunkKey(version: VersionId, position: int)

  datatype Chunk = Chunk(doc: DocId, source: SourceId, body: ChunkBody, createdAt: Time)

  type ChunkTable = map<ChunkKey, Chunk>

  /** A crawl page row is named by its source and normalised url. */
  datatype PageKey = PageKey(source: SourceId, url: string)

  datatype Db = Db(
    docs: map<DocId, Doc>,
    versions: map<VersionId, Version>,
    chunks: ChunkTable,
    logs: map<nat, Time>,                  // query_log: id -> created_at
    pages: map<PageKey, Option<Time>>)     // crawl_pages: key -> last_fetched_at

  // ---- The invariant -------------------------------------------------------

  // Each clause is a predicate of one row (or pair of rows), and is looked up
  // by naming that predicate, so that proofs bring in only what they use.

  ghost predicate SameKey(db: Db, d: DocId, e: DocId) {
    d in db.docs && e in db.docs && db.docs[d].key == db.docs[e].key
  }

  /** unique (source_id, external_id) */
  ghost predicate KeysUnique(db: Db) {
    forall d, e {:trigger SameKey(db, d, e)} :: SameKey(db, d, e) ==> d == e
  }

  ghost predicate HasDoc(db: Db, v: VersionId) {
    v in db.versions && db.versions[v].doc in db.docs
  }

  ghost predicate SameContent(db: Db, v: VersionId, w: VersionId) {
    && v in db.versions && w in db.versions
    && db.versions[v].doc == db.versions[w].doc && db.versions[v].hash == db.versions[w].hash
  }

  /** unique (document_id, content_hash), and every version has a document */
  ghost predicate VersionsSound(db: Db) {
    && (forall v {:trigger HasDoc(db, v)} :: v in db.versions ==> HasDoc(db, v))
    && (forall v, w {:trigger SameContent(db, v, w)} :: SameContent(db, v, w) ==> v == w)
  }

  ghost predicate OwnVersion(db: Db, d: DocId, cur: Option<VersionId>) {
    cur.Some? && cur.value in db.versions && db.versions[cur.value].doc == d
  }

  ghost predicate OwnsCurrent(db: Db, d: DocId) {
    d in db.docs && OwnVersion(db, d, db.docs[d].current)
  }

  /** Every document points at an existing version of its own. */
  ghost predicate CurrentSound(db: Db) {
    forall d {:trigger OwnsCurrent(db, d)} :: d in db.docs ==> OwnsCurrent(db, d)
  }

  ghost predicate ChunkSound(db: Db, k: ChunkKey) {
    && k in db.chunks && k.version in db.versions
    && var c := db.chunks[k];
       c.doc in db.docs && db.versions[k.version].doc == c.doc && c.source == db.docs[c.doc].key.source
  }

  /** A chunk's version is a version of the chunk's own document, and its
      denormalised source is that document's source. */
  ghost predicate ChunksSound(db: Db) {
    forall k {:trigger ChunkSound(db, k)} :: k in db.chunks ==> ChunkSound(db, k)
  }

  ghost predicate Stamped(db: Db, d: DocId) {
    d in db.docs && (db.docs[d].status == Deleted ==> db.docs[d].deletedAt.Some?)
  }

  ghost predicate DeletedStamped(db: Db) {
    forall d {:trigger Stamped(db, d)} :: d in db.docs ==> Stamped(db, d)
  }

  ghost predicate Inv(db: Db) {
    KeysUnique(db) && VersionsSound(db) && CurrentSound(db) && ChunksSound(db) && DeletedStamped(db)
  }

  // ---- Reading -------------------------------------------------------------

  ghost function DocOf(db: Db, key: Key): Option<DocId> {
    if exists d :: d in db.docs && db.docs[d].key == key
    then var d :| d in db.docs && db.docs[d].key == key; Some(d)
    else None
  }

  ghost function VersionOf(db: Db, d: DocId, hash: Hash): Option<VersionId> {
    if exists v :: v in db.versions && db.versions[v].doc == d && db.versions[v].hash == hash
    then var v :| v in db.versions && db.versions[v].doc == d && db.versions[v].hash == hash; Some(v)
    else None
  }

  /** The live_chunks view: status = 'active' and current_version = version_id,
      joined on the chunk's own document. */
  ghost predicate InLiveView(db: Db, k: ChunkKey) {
    && k in db.chunks
    && var d := db.chunks[k].doc;
       d in db.docs && db.docs[d].status == Active && db.docs[d].current == Some(k.version)
  }

  ghost function LiveView(db: Db): ChunkTable {
    map k | k in db.chunks && InLiveView(db, k) :: db.chunks[k]
  }

  /** One version's stored chunks, by position. */
  ghost function VersionChunks(t: ChunkTable, v: VersionId): map<int, ChunkBody> {
    map k | k in t && k.version == v :: k.position := t[k].body
  }

  lemma DocOfUnique(db: Db, d: DocId)
    requires KeysUnique(db) && d in db.docs
    ensures DocOf(db, db.docs[d].key) == Some(d)
  {
    assert DocOf(db, db.docs[d].key).Some?;
    assert SameKey(db, d, DocOf(db, db.docs[d].key).value);
  }

  lemma VersionOfUnique(db: Db, v: VersionId)
    requires VersionsSound(db) && v in db.versions
    ensures VersionOf(db, db.versions[v].doc, db.versions[v].hash) == Some(v)
  {
    assert VersionOf(db, db.versions[v].doc, db.versions[v].hash).Some?;
    assert SameContent(db, v, VersionOf(db, db.versions[v].doc, db.versions[v].hash).value);
  }
}
