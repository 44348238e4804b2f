/** What the versioned store means to a caller: a plain map from
    (source, external id) to (content hash, live flag), and for each live key
    the chunks first stored with its hash. */
module Refinement {
  import opened Basics
  import opened Rows
  import opened StoreSteps

  datatype Entry = Entry(hash: Hash, live: bool)

  /** The plain map, read at one key. */
  ghost function EntryAt(db: Db, key: Key): Option<Entry> {
    match DocOf(db, key)
    case None => None
    case Some(d) =>
      var cur := db.docs[d].current;
      if cur.Some? && cur.value in db.versions
      then Some(Entry(db.versions[cur.value].hash, db.docs[d].status == Active)) else None
  }

  /** Chunks stored under a key and hash, while a version with that hash survives. */
  ghost function StoredUnder(db: Db, key: Key, hash: Hash): Option<map<int, ChunkBody>> {
    match DocOf(db, key)
    case None => None
    case Some(d) =>
      match VersionOf(db, d, hash) case None => None case Some(v) => Some(VersionChunks(db.chunks, v))
  }

  /** What a reader of live_chunks sees of one key. */
  ghost function Shown(db: Db, key: Key): map<int, ChunkBody> {
    match DocOf(db, key)
    case None => map[]
    case Some(d) =>
      if db.docs[d].status == Active && db.docs[d].current.Some?
      then VersionChunks(db.chunks, db.docs[d].current.value) else map[]
  }

  ghost function Positions(cs: seq<ChunkInput>): map<int, ChunkBody> {
    if cs == [] then map[] else Positions(cs[..|cs| - 1])[cs[|cs| - 1].position := cs[|cs| - 1].body]
  }

  /** Shown is exactly the live_chunks rows of the document with that key. */
  lemma ShownIsLiveView(db: Db, key: Key, k: ChunkKey)
    requires Inv(db)
    ensures k in LiveView(db) && db.docs[db.chunks[k].doc].key == key
       <==> DocOf(db, key).Some? && db.docs[DocOf(db, key).value].current == Some(k.version)
            && k.position in Shown(db, key)
    ensures k in LiveView(db) && db.docs[db.chunks[k].doc].key == key ==>
      k.position in Shown(db, key) && Shown(db, key)[k.position] == db.chunks[k].body
  {
    if k in LiveView(db) && db.docs[db.chunks[k].doc].key == key {
      DocOfUnique(db, db.chunks[k].doc);
      assert k.position in VersionChunks(db.chunks, k.version);
    }
    var d := DocOf(db, key);
    if d.Some? && db.docs[d.value].current == Some(k.version) && k.position in Shown(db, key) {
      var k' :| k' in db.chunks && k'.version == k.version && k'.position == k.position;
      assert k' == k;
      assert ChunkSound(db, k) && OwnsCurrent(db, d.value);
    }
  }

  // ---- Naming a document or version by its row --------------------------------

  lemma EntryIs(db: Db, d: DocId)
    requires Inv(db) && d in db.docs
    ensures db.docs[d].current.Some? && db.docs[d].current.value in db.versions
    ensures EntryAt(db, db.docs[d].key)
         == Some(Entry(db.versions[db.docs[d].current.value].hash, db.docs[d].status == Active))
    ensures Shown(db, db.docs[d].key)
         == if db.docs[d].status == Active then VersionChunks(db.chunks, db.docs[d].current.value) else map[]
  {
    DocOfUnique(db, d);
    assert OwnsCurrent(db, d);
  }

  lemma StoredIs(db: Db, v: VersionId)
    requires Inv(db) && v in db.versions
    ensures db.versions[v].doc in db.docs
    ensures StoredUnder(db, db.docs[db.versions[v].doc].key, db.versions[v].hash) == Some(VersionChunks(db.chunks, v))
  {
    assert HasDoc(db, v);
    DocOfUnique(db, db.versions[v].doc);
    VersionOfUnique(db, v);
  }

  /** The current version's chunks are the ones stored under the current hash. */
  lemma ShownIsStored(db: Db, key: Key)
    requires Inv(db)
    ensures match EntryAt(db, key)
      case None => Shown(db, key) == map[]
      case Some(e) =>
        && StoredUnder(db, key, e.hash).Some?
        && Shown(db, key) == if e.live then StoredUnder(db, key, e.hash).value else map[]
  {
    var d := DocOf(db, key);
    if d.Some? {
      assert OwnsCurrent(db, d.value);
      EntryIs(db, d.value);
      StoredIs(db, db.docs[d.value].current.value);
    }
  }

  // ---- A changed Put ----------------------------------------------------------

  lemma {:induction false} NewRowsPositions(cs: seq<ChunkInput>, d: DocId, source: SourceId, v: VersionId, now: Time)
    ensures VersionChunks(NewRows(cs, d, source, v, now), v) == Positions(cs)
  {
    NewRowsAt(cs, d, source, v, now);
    if cs != [] {
      var n := |cs| - 1;
      NewRowsPositions(cs[..n], d, source, v, now);
      NewRowsAt(cs[..n], d, source, v, now);
      ChunksWithRow(NewRows(cs[..n], d, source, v, now), v, cs[n].position, Chunk(d, source, cs[n].body, now));
    }
  }

  lemma ChunksWithRow(t: ChunkTable, v: VersionId, p: int, row: Chunk)
    ensures VersionChunks(t[ChunkKey(v, p) := row], v) == VersionChunks(t, v)[p := row.body]
  {
    var a, b := VersionChunks(t[ChunkKey(v, p) := row], v), VersionChunks(t, v)[p := row.body];
    forall q ensures q in a <==> q in b {
      if q in b && q != p { assert ChunkKey(v, q) in t; assert ChunkKey(v, q) in t[ChunkKey(v, p) := row]; }
      if q == p { assert ChunkKey(v, p) in t[ChunkKey(v, p) := row]; }
    }
  }

  /** Rows of versions other than the ones added are read as before. */
  lemma ChunksBeside(t: ChunkTable, rows: ChunkTable, v: VersionId, w: VersionId)
    requires (forall k :: k in rows ==> k.version == v) && w != v
    ensures VersionChunks(t + rows, w) == VersionChunks(t, w)
  {
    var a, b := VersionChunks(t + rows, w), VersionChunks(t, w);
    forall q ensures q in a <==> q in b {
      if q in b { assert ChunkKey(w, q) in t + rows; }
      if q in a { assert ChunkKey(w, q) in t; }
    }
  }

  lemma ChunksOfNew(t: ChunkTable, rows: ChunkTable, v: VersionId)
    requires forall k :: k in t ==> k.version != v
    ensures VersionChunks(t + rows, v) == VersionChunks(rows, v)
  {
    var a, b := VersionChunks(t + rows, v), VersionChunks(rows, v);
    forall q ensures q in a <==> q in b {
      if q in b { assert ChunkKey(v, q) in rows; assert ChunkKey(v, q) in t + rows; }
      if q in a { assert ChunkKey(v, q) in rows; }
    }
  }

  /** The chunks a commit makes current: the surviving ones of the same hash
      (rollback), else the ones supplied. */
  ghost function Settled(db: Db, inp: PutInput): map<int, ChunkBody>
    requires inp.source.Some?
  {
    match StoredUnder(db, KeyOf(inp), inp.hash) case Some(cs) => cs case None => Positions(inp.chunks)
  }

  lemma CommitVersions(db: Db, inp: PutInput, now: Time, fd: DocId, fv: VersionId)
    requires Inv(db) && Enabled(db, PutCommit(inp, now, fd, fv))
    ensures var db', v := CommitPut(db, inp, now, fd, fv), PutVersion(db, inp, fd, fv);
      && VersionChunks(db'.chunks, v) == Settled(db, inp)
      && ChunksKept(db, db')
  {
    var db', d, v := CommitPut(db, inp, now, fd, fv), PutDoc(db, inp, fd), PutVersion(db, inp, fd, fv);
    CommitTarget(db, inp, now, fd, fv);
    if Reuses(db, inp, fd) {
      StoredIs(db, v);
    } else {
      assert StoredUnder(db, KeyOf(inp), inp.hash).None?;
      var rows := NewRows(inp.chunks, d, inp.source.value, v, now);
      NewRowsAt(inp.chunks, d, inp.source.value, v, now);
      forall k | k in db.chunks ensures k.version != v { assert ChunkSound(db, k); }
      ChunksOfNew(db.chunks, rows, v);
      NewRowsPositions(inp.chunks, d, inp.source.value, v, now);
      forall w | w in db.versions ensures VersionChunks(db'.chunks, w) == VersionChunks(db.chunks, w) {
        ChunksBeside(db.chunks, rows, v, w);
      }
    }
  }

  lemma CommitOwn(db: Db, inp: PutInput, now: Time, fd: DocId, fv: VersionId)
    requires Inv(db) && Enabled(db, PutCommit(inp, now, fd, fv))
    ensures var db' := CommitPut(db, inp, now, fd, fv);
      && EntryAt(db', KeyOf(inp)) == Some(Entry(inp.hash, true))
      && Shown(db', KeyOf(inp)) == Settled(db, inp)
      && StoredUnder(db', KeyOf(inp), inp.hash) == Some(Settled(db, inp))
  {
    var db', d, v := CommitPut(db, inp, now, fd, fv), PutDoc(db, inp, fd), PutVersion(db, inp, fd, fv);
    CommitTarget(db, inp, now, fd, fv);
    CommitPutKeepsInv(db, inp, now, fd, fv);
    CommitVersions(db, inp, now, fd, fv);
    EntryIs(db', d);
    StoredIs(db', v);
  }

  /** The rows a commit leaves, its identity d and version v settled. */
  ghost predicate CommitTables(db: Db, db': Db, d: DocId, v: VersionId, key: Key, hash: Hash) {
    && d in db'.docs && v in db'.versions
    && db'.docs.Keys == db.docs.Keys + {d} && (forall e :: e in db.docs && e != d ==> db'.docs[e] == db.docs[e])
    && (d in db.docs ==> db.docs[d].key == key) && db'.docs[d].key == key
    && db'.versions.Keys == db.versions.Keys + {v}
    && (forall w :: w in db.versions ==> db'.versions[w] == db.versions[w])
    && db'.versions[v].doc == d && db'.versions[v].hash == hash
  }

  ghost predicate ChunksKept(db: Db, db': Db) {
    forall w {:trigger VersionChunks(db'.chunks, w)} ::
      w in db.versions ==> VersionChunks(db'.chunks, w) == VersionChunks(db.chunks, w)
  }

  ghost predicate Commits(db: Db, db': Db, d: DocId, v: VersionId, key: Key, hash: Hash) {
    Inv(db) && Inv(db') && CommitTables(db, db', d, v, key, hash) && ChunksKept(db, db')
  }

  lemma CommitsTables(db: Db, inp: PutInput, now: Time, fd: DocId, fv: VersionId)
    requires Inv(db) && Enabled(db, PutCommit(inp, now, fd, fv))
    ensures CommitTables(db, CommitPut(db, inp, now, fd, fv), PutDoc(db, inp, fd), PutVersion(db, inp, fd, fv),
                         KeyOf(inp), inp.hash)
  {
    CommitTarget(db, inp, now, fd, fv);
  }

  lemma CommitRows(db: Db, inp: PutInput, now: Time, fd: DocId, fv: VersionId)
    requires Inv(db) && Enabled(db, PutCommit(inp, now, fd, fv))
    ensures Commits(db, CommitPut(db, inp, now, fd, fv), PutDoc(db, inp, fd), PutVersion(db, inp, fd, fv),
                    KeyOf(inp), inp.hash)
  {
    CommitsTables(db, inp, now, fd, fv);
    CommitPutKeepsInv(db, inp, now, fd, fv);
    CommitVersions(db, inp, now, fd, fv);
    assert ChunksKept(db, CommitPut(db, inp, now, fd, fv));
  }

  lemma OtherKeyKept(db: Db, db': Db, d: DocId, v: VersionId, own: Key, hash: Hash, key: Key)
    requires Commits(db, db', d, v, own, hash) && key != own
    ensures EntryAt(db', key) == EntryAt(db, key) && Shown(db', key) == Shown(db, key)
  {
    var e := DocOf(db, key);
    if e.Some? {
      assert OwnsCurrent(db, e.value) && e.value != d;
      EntryIs(db, e.value);
      EntryIs(db', e.value);
    } else {
      forall x | x in db'.docs ensures db'.docs[x].key != key {
        if x != d { assert db.docs[x].key == db'.docs[x].key; }
      }
      assert DocOf(db', key).None?;
    }
  }

  lemma CommitOther(db: Db, inp: PutInput, now: Time, fd: DocId, fv: VersionId, key: Key)
    requires Inv(db) && Enabled(db, PutCommit(inp, now, fd, fv)) && key != KeyOf(inp)
    ensures var db' := CommitPut(db, inp, now, fd, fv);
      EntryAt(db', key) == EntryAt(db, key) && Shown(db', key) == Shown(db, key)
  {
    CommitRows(db, inp, now, fd, fv);
    OtherKeyKept(db, CommitPut(db, inp, now, fd, fv), PutDoc(db, inp, fd), PutVersion(db, inp, fd, fv),
                 KeyOf(inp), inp.hash, key);
  }

  /** After a changed Put the key is live with the new hash and shows exactly the
      chunks of the surviving version of that hash, or the supplied ones; every
      other key is untouched. */
  lemma ChangedPutShows(db: Db, inp: PutInput, now: Time, fd: DocId, fv: VersionId)
    requires Inv(db) && Enabled(db, PutCommit(inp, now, fd, fv))
    ensures var db' := CommitPut(db, inp, now, fd, fv);
      && EntryAt(db', KeyOf(inp)) == Some(Entry(inp.hash, true))
      && Shown(db', KeyOf(inp)) == Settled(db, inp)
      && forall key :: key != KeyOf(inp) ==> EntryAt(db', key) == EntryAt(db, key) && Shown(db', key) == Shown(db, key)
  {
    CommitOwn(db, inp, now, fd, fv);
    forall key | key != KeyOf(inp)
      ensures EntryAt(CommitPut(db, inp, now, fd, fv), key) == EntryAt(db, key)
           && Shown(CommitPut(db, inp, now, fd, fv), key) == Shown(db, key)
    {
      CommitOther(db, inp, now, fd, fv, key);
    }
  }

  // ---- Every other step: versions only survive or go --------------------------

  /** No key moves, no version row changes, and a surviving version keeps
      exactly its chunks. */
  ghost predicate Retains(db: Db, db': Db) {
    && (forall d :: d in db'.docs ==>
          d in db.docs && db'.docs[d].key == db.docs[d].key && db'.docs[d].current == db.docs[d].current)
    && (forall v :: v in db'.versions ==> v in db.versions && db'.versions[v] == db.versions[v])
    && (forall k: ChunkKey :: k.version in db'.versions ==> (k in db'.chunks <==> k in db.chunks))
    && (forall k :: k in db'.chunks && k in db.chunks ==> db'.chunks[k] == db.chunks[k])
  }

  lemma RetainsChunks(db: Db, db': Db, v: VersionId)
    requires Retains(db, db') && v in db'.versions
    ensures VersionChunks(db'.chunks, v) == VersionChunks(db.chunks, v)
  {
    var a, b := VersionChunks(db'.chunks, v), VersionChunks(db.chunks, v);
    forall q ensures q in a <==> q in b {
      if q in b { assert ChunkKey(v, q) in db'.chunks; }
      if q in a { assert ChunkKey(v, q) in db.chunks; }
    }
  }

  lemma WithDocRetains(db: Db, d: DocId, row: Doc)
    requires d in db.docs && row.key == db.docs[d].key && row.current == db.docs[d].current
    ensures Retains(db, WithDoc(db, d, row))
  {
  }

  lemma UpdateRetains(db: Db, s: Step)
    requires s.PutTouch? || s.Touch? || s.Delete?
    ensures Retains(db, Apply(db, s))
  {
    var d := match s
      case PutTouch(d, _) => Some(d)
      case Delete(d, _) => Some(d)
      case Touch(key, hash, _) => Unchanged(db, key, hash);
    if d.Some? && d.value in db.docs && Apply(db, s) != db {
      WithDocRetains(db, d.value, Apply(db, s).docs[d.value]);
    }
  }

  lemma SweepRetains(db: Db, source: SourceId, startedAt: Time, now: Time)
    ensures Retains(db, SoftDeleteUnseen(db, source, startedAt, now))
  {
  }

  lemma RemoveVersionsRetains(db: Db, cutoff: Time, vs: set<VersionId>)
    requires vs <= OldVersions(db, cutoff)
    ensures Retains(db, RemoveVersions(db, vs))
  {
  }

  lemma RemoveDocsRetains(db: Db, ds: set<DocId>)
    requires Inv(db)
    ensures Retains(db, RemoveDocs(db, ds))
  {
    var db' := RemoveDocs(db, ds);
    forall k | k in db.chunks && k.version in db'.versions ensures k in db'.chunks {
      assert ChunkSound(db, k);
    }
  }

  lemma DropSourceRetains(db: Db, source: SourceId)
    requires Inv(db)
    ensures Retains(db, DeleteSource(db, source))
  {
    RemoveDocsRetains(db, DocsOfSource(db, source));
  }

  lemma StepRetains(db: Db, s: Step)
    requires Inv(db) && Enabled(db, s) && !s.PutCommit?
    ensures Retains(db, Apply(db, s))
  {
    match s
    case PutTouch(_, _) => UpdateRetains(db, s);
    case Touch(_, _, _) => UpdateRetains(db, s);
    case Delete(_, _) => UpdateRetains(db, s);
    case Sweep(source, startedAt, now) => SweepRetains(db, source, startedAt, now);
    case GcVersions(cutoff, vs) => RemoveVersionsRetains(db, cutoff, vs);
    case GcDocs(_, ds) => RemoveDocsRetains(db, ds);
    case DropSource(source) => DropSourceRetains(db, source);
    case GcLogs(_) =>
    case GcPages(_) =>
  }

  /** Whatever is stored after a commit is stored by a version that was there, or by
      the committed one under its own key and hash. */
  lemma StoredAfter(db: Db, db': Db, d: DocId, v: VersionId, own: Key, hash: Hash, key: Key, h: Hash)
    requires Commits(db, db', d, v, own, hash)
    ensures StoredUnder(db', key, h).Some? ==>
      StoredUnder(db', key, h) == StoredUnder(db, key, h) || (v !in db.versions && key == own && h == hash)
  {
    if StoredUnder(db', key, h).Some? {
      var w := VersionOf(db', DocOf(db', key).value, h).value;
      StoredIs(db', w);
      if w in db.versions { StoredIs(db, w); }
    }
  }

  lemma CommitStores(db: Db, inp: PutInput, now: Time, fd: DocId, fv: VersionId, key: Key, hash: Hash)
    requires Inv(db) && Enabled(db, PutCommit(inp, now, fd, fv))
    ensures var after := StoredUnder(CommitPut(db, inp, now, fd, fv), key, hash);
      after.Some? ==>
        || after == StoredUnder(db, key, hash)
        || (&& KeyOf(inp) == key && inp.hash == hash && StoredUnder(db, key, hash).None?
            && after.value == Positions(inp.chunks))
  {
    CommitRows(db, inp, now, fd, fv);
    StoredAfter(db, CommitPut(db, inp, now, fd, fv), PutDoc(db, inp, fd), PutVersion(db, inp, fd, fv),
                KeyOf(inp), inp.hash, key, hash);
    CommitOwn(db, inp, now, fd, fv);
  }

  lemma RetainedStores(db: Db, db': Db, key: Key, hash: Hash)
    requires Inv(db) && Inv(db') && Retains(db, db')
    ensures StoredUnder(db', key, hash).Some? ==> StoredUnder(db', key, hash) == StoredUnder(db, key, hash)
  {
    if StoredUnder(db', key, hash).Some? {
      var v := VersionOf(db', DocOf(db', key).value, hash).value;
      RetainsChunks(db, db', v);
      StoredIs(db, v);
    }
  }

  /** Stored chunks are immutable: whatever a step leaves stored under a key and
      hash was there before, or is what this very step's Put supplied. */
  lemma StoredIsImmutable(db: Db, s: Step, key: Key, hash: Hash)
    requires Inv(db) && Enabled(db, s)
    ensures var after := StoredUnder(Apply(db, s), key, hash);
      after.Some? ==>
        || after == StoredUnder(db, key, hash)
        || (s.PutCommit? && KeyOf(s.inp) == key && s.inp.hash == hash && StoredUnder(db, key, hash).None?
            && after.value == Positions(s.inp.chunks))
  {
    if s.PutCommit? {
      CommitStores(db, s.inp, s.now, s.freshDoc, s.freshVersion, key, hash);
    } else {
      StepKeepsInv(db, s);
      StepRetains(db, s);
      RetainedStores(db, Apply(db, s), key, hash);
    }
  }

  // ---- The plain map --------------------------------------------------------

  /** One step of the plain map, seen at one key. Deletion by id and the sweep
      may only turn keys off, retention may only drop keys that are off. */
  ghost predicate PlainStep(s: Step, key: Key, before: Option<Entry>, after: Option<Entry>) {
    match s
    case PutCommit(inp, _, _, _) =>
      inp.source.Some? && after == if key == KeyOf(inp) then Some(Entry(inp.hash, true)) else before
    case Touch(k, hash, _) =>
      after == if key == k && before.Some? && before.value.hash == hash then Some(Entry(hash, true)) else before
    case Delete(_, _) => after == before || TurnedOff(before, after)
    case Sweep(source, _, _) => after == before || (key.source == source && TurnedOff(before, after))
    case GcDocs(_, _) => after == before || (before.Some? && !before.value.live && after.None?)
    case DropSource(source) => after == if key.source == source then None else before
    case _ => after == before
  }

  ghost predicate TurnedOff(before: Option<Entry>, after: Option<Entry>) {
    before.Some? && before.value.live && after == Some(before.value.(live := false))
  }

  lemma SurvivorEntry(db: Db, db': Db, d: DocId)
    requires Inv(db) && Inv(db') && Retains(db, db') && d in db'.docs
    ensures var key := db.docs[d].key;
      && EntryAt(db, key).Some?
      && EntryAt(db', key) == Some(EntryAt(db, key).value.(live := db'.docs[d].status == Active))
      && EntryAt(db, key).value.live == (db.docs[d].status == Active)
  {
    EntryIs(db, d);
    EntryIs(db', d);
  }

  /** How a surviving document's status moves. */
  ghost predicate StatusStep(db: Db, s: Step, d: DocId, after: Status)
    requires d in db.docs
  {
    var before := db.docs[d].status;
    match s
    case Touch(k, hash, _) => after == if Unchanged(db, k, hash) == Some(d) then Active else before
    case Delete(_, _) => after == before || (before == Active && after == Deleted)
    case Sweep(source, _, _) =>
      after == before || (db.docs[d].key.source == source && before == Active && after == Deleted)
    case DropSource(source) => after == before && db.docs[d].key.source != source
    case _ => after == before
  }

  lemma StatusMoves(db: Db, s: Step, d: DocId)
    requires Enabled(db, s) && !s.PutCommit? && d in db.docs && d in Apply(db, s).docs
    ensures StatusStep(db, s, d, Apply(db, s).docs[d].status)
  {
    match s
    case PutTouch(e, now) => assert TouchRow(db, e, now).docs[d].status == db.docs[d].status;
    case Touch(k, hash, now) => assert StatusStep(db, s, d, TouchIfUnchanged(db, k, hash, now).docs[d].status);
    case Delete(e, now) => assert StatusStep(db, s, d, SoftDelete(db, e, now).docs[d].status);
    case Sweep(source, startedAt, now) =>
      assert StatusStep(db, s, d, SoftDeleteUnseen(db, source, startedAt, now).docs[d].status);
    case GcVersions(_, vs) => assert RemoveVersions(db, vs).docs == db.docs;
    case GcDocs(_, ds) => assert RemoveDocs(db, ds).docs[d] == db.docs[d];
    case DropSource(source) => assert RemoveDocs(db, DocsOfSource(db, source)).docs[d] == db.docs[d];
    case GcLogs(_) =>
    case GcPages(_) =>
  }

  lemma UnchangedMeans(db: Db, d: DocId, key: Key, hash: Hash)
    requires Inv(db) && d in db.docs
    ensures Unchanged(db, key, hash) == Some(d) <==>
      db.docs[d].key == key && EntryAt(db, key).Some? && EntryAt(db, key).value.hash == hash
  {
    EntryIs(db, d);
    if db.docs[d].key == key { DocOfUnique(db, d); }
  }

  /** At a key whose document survives, a step only moves the live flag. */
  lemma SurvivorRefines(db: Db, s: Step, before: Option<Entry>, after: Option<Entry>, d: DocId, status: Status)
    requires Inv(db) && d in db.docs && !s.PutCommit? && StatusStep(db, s, d, status)
    requires before == EntryAt(db, db.docs[d].key) && before.Some? && before.value.live == (db.docs[d].status == Active)
    requires after == Some(before.value.(live := status == Active))
    ensures PlainStep(s, db.docs[d].key, before, after)
  {
    if s.Touch? { UnchangedMeans(db, d, s.key, s.hash); }
  }

  lemma VictimRefines(db: Db, s: Step, d: DocId)
    requires Inv(db) && Enabled(db, s) && !s.PutCommit? && d in db.docs && d !in Apply(db, s).docs
    ensures PlainStep(s, db.docs[d].key, EntryAt(db, db.docs[d].key), None)
    ensures EntryAt(Apply(db, s), db.docs[d].key) == None
  {
    var db' := Apply(db, s);
    EntryIs(db, d);
    StepRetains(db, s);
    forall e | e in db'.docs ensures db'.docs[e].key != db.docs[d].key {
      assert SameKey(db, d, e) ==> d == e;
    }
  }

  /** The store refines the plain map, step by step and key by key. */
  lemma StepRefines(db: Db, s: Step, key: Key)
    requires Inv(db) && Enabled(db, s)
    ensures PlainStep(s, key, EntryAt(db, key), EntryAt(Apply(db, s), key))
  {
    if s.PutCommit? {
      ChangedPutShows(db, s.inp, s.now, s.freshDoc, s.freshVersion);
    } else {
      var d := DocOf(db, key);
      if d.None? {
        StepRetains(db, s);
        assert DocOf(Apply(db, s), key).None?;
      } else if d.value in Apply(db, s).docs {
        StepKeepsInv(db, s);
        StepRetains(db, s);
        SurvivorEntry(db, Apply(db, s), d.value);
        StatusMoves(db, s, d.value);
        SurvivorRefines(db, s, EntryAt(db, key), EntryAt(Apply(db, s), key),
                        d.value, Apply(db, s).docs[d.value].status);
      } else {
        VictimRefines(db, s, d.value);
      }
    }
  }

  /** The plain map has no ids and no clock; in the store's own terms a key is turned
      off by a delete exactly when it is live and its document is the one named, by a
      sweep exactly when it is live, of that source and last seen before the start,
      and dropped by retention exactly when its document is among the victims. */
  lemma StepTurnsOffExactly(db: Db, s: Step, d: DocId)
    requires Inv(db) && Enabled(db, s) && d in db.docs && (s.Delete? || s.Sweep? || s.GcDocs?)
    ensures var key, before := db.docs[d].key, EntryAt(db, db.docs[d].key);
      var after := EntryAt(Apply(db, s), key);
      && before.Some? && (before.value.live <==> db.docs[d].status == Active)
      && (s.Delete? ==> after == if d == s.doc then Some(before.value.(live := false)) else before)
      && (s.Sweep? ==>
            var unseen := key.source == s.source && db.docs[d].lastSeen < s.startedAt;
            after == if unseen then Some(before.value.(live := false)) else before)
      && (s.GcDocs? ==> after == if d in s.docVictims then None else before)
  {
    EntryIs(db, d);
    StepKeepsInv(db, s);
    if s.GcDocs? && d in s.docVictims {
      VictimRefines(db, s, d);
    } else {
      StepRetains(db, s);
      StatusExactly(db, s, d);
      SurvivorEntry(db, Apply(db, s), d);
    }
  }

  lemma StatusExactly(db: Db, s: Step, d: DocId)
    requires Enabled(db, s) && d in db.docs && (s.Delete? || s.Sweep? || (s.GcDocs? && d !in s.docVictims))
    ensures d in Apply(db, s).docs
    ensures Apply(db, s).docs[d].status ==
      if s.Delete? && d == s.doc then Deleted
      else if s.Sweep? && db.docs[d].key.source == s.source && db.docs[d].lastSeen < s.startedAt then Deleted
      else db.docs[d].status
  {
    match s
    case Delete(e, now) => assert d in SoftDelete(db, e, now).docs;
    case Sweep(source, startedAt, now) => assert d in SoftDeleteUnseen(db, source, startedAt, now).docs;
    case GcDocs(_, ds) => assert d in RemoveDocs(db, ds).docs;
  }

  /** A changed Put leaves deleted_at as it is: after it the active document carries
      the old value, or none when the Put created it. */
  lemma CommitLeavesStamp(db: Db, inp: PutInput, now: Time, fd: DocId, fv: VersionId)
    requires Inv(db) && Enabled(db, PutCommit(inp, now, fd, fv))
    ensures var db', d := CommitPut(db, inp, now, fd, fv), PutDoc(db, inp, fd);
      && DocOf(db', KeyOf(inp)) == Some(d) && db'.docs[d].status == Active
      && (d in db.docs <==> DocOf(db, KeyOf(inp)).Some?)
      && db'.docs[d].deletedAt == (if d in db.docs then db.docs[d].deletedAt else None)
  {
    CommitTarget(db, inp, now, fd, fv);
    CommitPutKeepsInv(db, inp, now, fd, fv);
    DocOfUnique(CommitPut(db, inp, now, fd, fv), PutDoc(db, inp, fd));
  }

  ghost predicate Supplies(s: Step, key: Key, hash: Hash, cs: map<int, ChunkBody>) {
    s.PutCommit? && s.inp.source.Some? && KeyOf(s.inp) == key && s.inp.hash == hash && Positions(s.inp.chunks) == cs
  }

  /** Over any history, what is stored under a key and hash was stored at the
      start or was supplied by a Put of that key and hash in the history. */
  lemma {:induction false} Provenance(db: Db, steps: seq<Step>, key: Key, hash: Hash)
    requires Inv(db) && Runs(db, steps) && StoredUnder(After(db, steps), key, hash).Some?
    ensures var cs := StoredUnder(After(db, steps), key, hash);
      cs == StoredUnder(db, key, hash) || exists i :: 0 <= i < |steps| && Supplies(steps[i], key, hash, cs.value)
    decreases |steps|
  {
    if steps != [] {
      var db1 := Apply(db, steps[0]);
      StepKeepsInv(db, steps[0]);
      Provenance(db1, steps[1..], key, hash);
      var cs := StoredUnder(After(db, steps), key, hash);
      if cs == StoredUnder(db1, key, hash) {
        StoredIsImmutable(db, steps[0], key, hash);
        if cs != StoredUnder(db, key, hash) { assert Supplies(steps[0], key, hash, cs.value); }
      } else {
        var i :| 0 <= i < |steps[1..]| && Supplies(steps[1..][i], key, hash, cs.value);
        assert steps[i + 1] == steps[1..][i];
      }
    }
  }

  /** When chunking is a function of content, every history - rollbacks, re-puts,
      deletes, sweeps and garbage collection in any order - leaves each live key
      showing exactly the chunks of its current hash, and each dead key nothing. */
  lemma HistoryShows(steps: seq<Step>, chunking: (Key, Hash) -> map<int, ChunkBody>, key: Key)
    requires Runs(EmptyDb, steps)
    requires forall s :: s in steps && s.PutCommit? && s.inp.source.Some? ==>
      Positions(s.inp.chunks) == chunking(KeyOf(s.inp), s.inp.hash)
    ensures var db := After(EmptyDb, steps);
      match EntryAt(db, key)
      case None => Shown(db, key) == map[]
      case Some(e) => Shown(db, key) == if e.live then chunking(key, e.hash) else map[]
  {
    var db := After(EmptyDb, steps);
    RunKeepsInv(EmptyDb, steps);
    ShownIsStored(db, key);
    var e := EntryAt(db, key);
    if e.Some? {
      Provenance(EmptyDb, steps, key, e.value.hash);
      var i :| 0 <= i < |steps| && Supplies(steps[i], key, e.value.hash, StoredUnder(db, key, e.value.hash).value);
      assert steps[i] in steps;
    }
  }
}
