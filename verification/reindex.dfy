/** The reindex: a side table filled version by version, a coverage check, and
    the swap that makes it the chunks table. */
module Reindex {
  import opened Basics
  import opened Rows
  import opened StoreSteps
  import opened Refinement

  /** One row handed to InsertChunksNew, which never supplies a chunk hash. */
  datatype NewRow = NewRow(doc: DocId, version: VersionId, source: SourceId, position: int, body: ChunkBody)

  function KeyOfRow(r: NewRow): ChunkKey { ChunkKey(r.version, r.position) }

  /** The columns the insert statement writes; the rest take their defaults. */
  function Written(r: NewRow, now: Time): Chunk {
    Chunk(r.doc, r.source, r.body.(hash := None, metadata := "{}"), now)
  }

  function Table(rows: seq<NewRow>, now: Time): ChunkTable {
    if rows == [] then map[]
    else Table(rows[..|rows| - 1], now)[KeyOfRow(rows[|rows| - 1]) := Written(rows[|rows| - 1], now)]
  }

  function RowsOf(t: ChunkTable, v: VersionId): set<ChunkKey> {
    set k | k in t && k.version == v
  }

  ghost predicate RowReady(db: Db, r: NewRow) {
    r.body.embedding != [] && r.body.model != "" && r.doc in db.docs && r.version in db.versions
  }

  /** When one InsertChunksNew commits. chunks_new is created `like chunks`, so
      it inherits not null on content_hash when chunks has it. */
  ghost predicate Accepts(db: Db, side: ChunkTable, hashRequired: bool, v: VersionId, rows: seq<NewRow>) {
    && (forall r :: r in rows ==> RowReady(db, r))
    && (hashRequired ==> forall r :: r in rows ==> Written(r, 0).body.hash.Some?)
    && (forall i :: 0 <= i < |rows| ==> KeyOfRow(rows[i]) !in side - RowsOf(side, v))
    && (forall i, j :: 0 <= i < j < |rows| ==> KeyOfRow(rows[i]) != KeyOfRow(rows[j]))
  }

  ghost function AfterInsert(side: ChunkTable, v: VersionId, rows: seq<NewRow>, now: Time): ChunkTable {
    (side - RowsOf(side, v)) + Table(rows, now)
  }

  lemma {:induction false} TableAt(rows: seq<NewRow>, now: Time)
    ensures forall k :: k in Table(rows, now) <==> exists i :: 0 <= i < |rows| && KeyOfRow(rows[i]) == k
    ensures forall k :: k in Table(rows, now) ==>
      exists i :: 0 <= i < |rows| && KeyOfRow(rows[i]) == k && Table(rows, now)[k] == Written(rows[i], now)
  {
    if rows != [] {
      var n := |rows| - 1;
      var init := rows[..n];
      TableAt(init, now);
      forall k ensures k in Table(rows, now) <==> exists i :: 0 <= i < |rows| && KeyOfRow(rows[i]) == k {
        if k in Table(init, now) {
          var i :| 0 <= i < n && KeyOfRow(init[i]) == k;
          assert rows[i] == init[i];
        }
        if i :| 0 <= i < |rows| && KeyOfRow(rows[i]) == k {
          if i < n { assert init[i] == rows[i]; }
        }
      }
      forall k | k in Table(rows, now)
        ensures exists i :: 0 <= i < |rows| && KeyOfRow(rows[i]) == k && Table(rows, now)[k] == Written(rows[i], now)
      {
        if k == KeyOfRow(rows[n]) {
          assert Table(rows, now)[k] == Written(rows[n], now);
        } else {
          var i :| 0 <= i < n && KeyOfRow(init[i]) == k && Table(init, now)[k] == Written(init[i], now);
          assert rows[i] == init[i];
        }
      }
    }
  }

  /** A stored row: the given text, vector and model under the given document and
      source, with no hash, no metadata, dated now. */
  ghost predicate StoresRow(c: Chunk, r: NewRow, now: Time) {
    && c.doc == r.doc && c.source == r.source && c.createdAt == now
    && c.body.headingPath == r.body.headingPath && c.body.content == r.body.content
    && c.body.tokenCount == r.body.tokenCount
    && c.body.embedding == r.body.embedding && c.body.model == r.body.model
    && c.body.hash == None && c.body.metadata == "{}"
  }

  ghost predicate KeysDistinct(rows: seq<NewRow>) {
    forall i, j :: 0 <= i < j < |rows| ==> KeyOfRow(rows[i]) != KeyOfRow(rows[j])
  }

  lemma RowsStored(rows: seq<NewRow>, now: Time, i: nat)
    requires KeysDistinct(rows) && i < |rows|
    ensures KeyOfRow(rows[i]) in Table(rows, now) && StoresRow(Table(rows, now)[KeyOfRow(rows[i])], rows[i], now)
  {
    TableAt(rows, now);
    var k := KeyOfRow(rows[i]);
    var j :| 0 <= j < |rows| && KeyOfRow(rows[j]) == k && Table(rows, now)[k] == Written(rows[j], now);
    assert j == i;
  }

  /** After an accepted insertion the side table holds, of that version, one row for
      each row given, storing it, and of the others what it held. */
  lemma InsertStores(db: Db, side: ChunkTable, hashRequired: bool, v: VersionId, rows: seq<NewRow>, now: Time)
    requires Accepts(db, side, hashRequired, v, rows)
    ensures var after := AfterInsert(side, v, rows, now);
      && (forall i :: 0 <= i < |rows| ==>
            KeyOfRow(rows[i]) in after && StoresRow(after[KeyOfRow(rows[i])], rows[i], now))
      && (forall k :: k in after ==>
            (k in side && k.version != v) || exists i :: 0 <= i < |rows| && KeyOfRow(rows[i]) == k)
      && (forall k :: k in side && k.version != v ==> k in after && after[k] == side[k])
  {
    var after := AfterInsert(side, v, rows, now);
    TableAt(rows, now);
    forall i | 0 <= i < |rows| ensures KeyOfRow(rows[i]) in after && StoresRow(after[KeyOfRow(rows[i])], rows[i], now) {
      RowsStored(rows, now, i);
    }
    forall k | k in side && k.version != v ensures k in after && after[k] == side[k] {
      assert k in side - RowsOf(side, v);
    }
  }

  // ---- Sequences of calls, crashes and repeats included ---------------------

  datatype Call = Call(version: VersionId, rows: seq<NewRow>, now: Time)

  /** The reindexer builds every row of a call for that call's version. */
  ghost predicate WellBuilt(c: Call) {
    forall r :: r in c.rows ==> r.version == c.version
  }

  ghost function AfterCalls(db: Db, side: ChunkTable, hashRequired: bool, calls: seq<Call>): ChunkTable
    decreases |calls|
  {
    if calls == [] then side
    else
      var c, before := calls[|calls| - 1], AfterCalls(db, side, hashRequired, calls[..|calls| - 1]);
      if Accepts(db, before, hashRequired, c.version, c.rows)
      then AfterInsert(before, c.version, c.rows, c.now) else before
  }

  /** The last call for `v` that committed, if any. */
  ghost function LastFor(db: Db, side: ChunkTable, hashRequired: bool, calls: seq<Call>, v: VersionId): Option<Call>
    decreases |calls|
  {
    if calls == [] then None
    else
      var c, init := calls[|calls| - 1], calls[..|calls| - 1];
      if c.version == v && Accepts(db, AfterCalls(db, side, hashRequired, init), hashRequired, v, c.rows)
      then Some(c) else LastFor(db, side, hashRequired, init, v)
  }

  ghost function OnlyVersion(t: ChunkTable, v: VersionId): ChunkTable {
    map k | k in t && k.version == v :: t[k]
  }

  lemma InsertReplaces(side: ChunkTable, c: Call, v: VersionId)
    requires WellBuilt(c)
    ensures OnlyVersion(AfterInsert(side, c.version, c.rows, c.now), v)
         == if v == c.version then Table(c.rows, c.now) else OnlyVersion(side, v)
  {
    TableAt(c.rows, c.now);
    var after := AfterInsert(side, c.version, c.rows, c.now);
    assert forall k :: k in Table(c.rows, c.now) ==> k.version == c.version;
    if v == c.version {
      assert forall k :: k in OnlyVersion(after, v) <==> k in Table(c.rows, c.now);
    } else {
      assert forall k :: k in OnlyVersion(after, v) <==> k in OnlyVersion(side, v);
    }
  }

  /** After any sequence of calls, committed, failed or repeated, the side table
      holds for each version exactly the rows of the last committed call for it,
      and what it held before where there was none. */
  lemma {:induction false} SideHoldsLast(db: Db, side: ChunkTable, hashRequired: bool, calls: seq<Call>, v: VersionId)
    requires forall c :: c in calls ==> WellBuilt(c)
    ensures OnlyVersion(AfterCalls(db, side, hashRequired, calls), v)
         == match LastFor(db, side, hashRequired, calls, v)
            case Some(c) => Table(c.rows, c.now)
            case None => OnlyVersion(side, v)
    decreases |calls|
  {
    if calls != [] {
      var n := |calls| - 1;
      SideHoldsLast(db, side, hashRequired, calls[..n], v);
      InsertReplaces(AfterCalls(db, side, hashRequired, calls[..n]), calls[n], v);
    }
  }

  /** The insert never writes a hash, so where one is required no row passes. */
  lemma RequiredHashTakesNoRow(db: Db, side: ChunkTable, v: VersionId, rows: seq<NewRow>)
    ensures Accepts(db, side, true, v, rows) ==> rows == []
  {
    MemberOfNonEmpty(rows);
    assert forall r :: r in rows ==> Written(r, 0).body.hash.None?;
  }

  /** With the schema as shipped, where chunks.content_hash is not null and has
      no default, no sequence of calls ever writes a row. */
  lemma {:induction false} RequiredHashWritesNothing(db: Db, calls: seq<Call>)
    ensures AfterCalls(db, map[], true, calls) == map[]
    decreases |calls|
  {
    if calls != [] {
      RequiredHashWritesNothing(db, calls[..|calls| - 1]);
      var c, none: ChunkTable := calls[|calls| - 1], map[];
      RequiredHashTakesNoRow(db, none, c.version, c.rows);
      assert none - RowsOf(none, c.version) + Table([], c.now) == none;
    }
  }

  // ---- Coverage -------------------------------------------------------------

  function LiveDocs(db: Db): set<DocId> {
    set d | d in db.docs && db.docs[d].status == Active && db.docs[d].current.Some?
  }

  predicate HasRow(t: ChunkTable, v: VersionId) {
    exists k :: k in t && k.version == v
  }

  function CoveredDocs(db: Db, t: ChunkTable): set<DocId> {
    set d | d in LiveDocs(db) && HasRow(t, db.docs[d].current.value)
  }

  /** The verification flag compares two counts. */
  predicate Covered(db: Db, t: ChunkTable) {
    |LiveDocs(db)| == |CoveredDocs(db, t)|
  }

  /** The counts agree exactly when every live version has a row. */
  lemma CoveredMeans(db: Db, t: ChunkTable)
    ensures Covered(db, t) <==> forall d :: d in LiveDocs(db) ==> HasRow(t, db.docs[d].current.value)
  {
    var live, covered := LiveDocs(db), CoveredDocs(db, t);
    assert covered <= live;
    if Covered(db, t) {
      assert live == covered + (live - covered);
      assert |live - covered| == 0;
    }
    assert (forall d :: d in live ==> d in covered) ==> live == covered;
  }

  ghost function Swapped(db: Db, side: ChunkTable): Db {
    db.(chunks := side)
  }

  ghost predicate Visible(db: Db, d: DocId) {
    exists k :: InLiveView(db, k) && db.chunks[k].doc == d
  }

  /** Once coverage holds, every active document has a visible chunk the moment
      the swap commits, and the store's invariant holds of the new table. */
  lemma CoveredSwapKeepsVisible(db: Db, side: ChunkTable, d: DocId)
    requires Inv(db) && ChunksSound(Swapped(db, side)) && Covered(db, side)
    ensures Inv(Swapped(db, side))
    ensures d in LiveDocs(db) ==> Visible(Swapped(db, side), d)
  {
    var db' := Swapped(db, side);
    SwapKeepsInv(db, side);
    CoveredMeans(db, side);
    if d in LiveDocs(db) {
      var k :| k in side && k.version == db.docs[d].current.value;
      assert ChunkSound(db', k) && OwnsCurrent(db, d);
      assert InLiveView(db', k) && db'.chunks[k].doc == d;
    }
  }

  /** A call's rows carry their version's own document and source, while that
      version is there. */
  ghost predicate OwnRows(db: Db, c: Call) {
    && WellBuilt(c)
    && (c.version in db.versions && db.versions[c.version].doc in db.docs ==>
          var d := db.versions[c.version].doc;
          forall r :: r in c.rows ==> r.doc == d && r.source == db.docs[d].key.source)
  }

  ghost predicate SideSound(db: Db, side: ChunkTable) {
    ChunksSound(Swapped(db, side))
  }

  lemma InsertKeepsSound(db: Db, side: ChunkTable, hashRequired: bool, c: Call)
    requires Inv(db) && SideSound(db, side) && OwnRows(db, c) && Accepts(db, side, hashRequired, c.version, c.rows)
    ensures SideSound(db, AfterInsert(side, c.version, c.rows, c.now))
  {
    var side' := AfterInsert(side, c.version, c.rows, c.now);
    TableAt(c.rows, c.now);
    forall k | k in side' ensures ChunkSound(Swapped(db, side'), k) {
      if k in Table(c.rows, c.now) {
        var i :| 0 <= i < |c.rows| && KeyOfRow(c.rows[i]) == k && Table(c.rows, c.now)[k] == Written(c.rows[i], c.now);
        assert c.rows[i] in c.rows && RowReady(db, c.rows[i]) && HasDoc(db, c.version);
      } else {
        assert ChunkSound(Swapped(db, side), k);
      }
    }
  }

  lemma {:induction false} CallsKeepSound(db: Db, hashRequired: bool, calls: seq<Call>)
    requires Inv(db) && forall c :: c in calls ==> OwnRows(db, c)
    ensures SideSound(db, AfterCalls(db, map[], hashRequired, calls))
    decreases |calls|
  {
    if calls != [] {
      var n := |calls| - 1;
      CallsKeepSound(db, hashRequired, calls[..n]);
      var before := AfterCalls(db, map[], hashRequired, calls[..n]);
      if Accepts(db, before, hashRequired, calls[n].version, calls[n].rows) {
        InsertKeepsSound(db, before, hashRequired, calls[n]);
      }
    }
  }

  /** After any sequence of calls, repeats and failures included, coverage at the
      swap means that every active document stays visible. */
  lemma CoveredCallsKeepVisible(db: Db, hashRequired: bool, calls: seq<Call>, d: DocId)
    requires Inv(db) && (forall c :: c in calls ==> OwnRows(db, c))
    requires Covered(db, AfterCalls(db, map[], hashRequired, calls)) && d in LiveDocs(db)
    ensures var db' := Swapped(db, AfterCalls(db, map[], hashRequired, calls)); Inv(db') && Visible(db', d)
  {
    CallsKeepSound(db, hashRequired, calls);
    CoveredSwapKeepsVisible(db, AfterCalls(db, map[], hashRequired, calls), d);
  }

  lemma SwapKeepsInv(db: Db, side: ChunkTable)
    requires Inv(db) && ChunksSound(Swapped(db, side))
    ensures Inv(Swapped(db, side))
  {
    var db' := Swapped(db, side);
    forall d, e | SameKey(db', d, e) ensures d == e { assert SameKey(db, d, e); }
    forall v | v in db'.versions ensures HasDoc(db', v) { assert HasDoc(db, v); }
    forall v, w | SameContent(db', v, w) ensures v == w { assert SameContent(db, v, w); }
    forall d | d in db'.docs
      ensures OwnsCurrent(db', d) && Stamped(db', d)
    {
      assert OwnsCurrent(db, d) && Stamped(db, d);
    }
  }

  // ---- The text-reuse path --------------------------------------------------

  /** The new row carries the stored text under a new vector and model. */
  ghost predicate SameText(a: Chunk, b: Chunk) {
    && a.doc == b.doc && a.source == b.source
    && a.body.content == b.body.content && a.body.headingPath == b.body.headingPath
    && a.body.tokenCount == b.body.tokenCount
  }

  /** The side table holds version `v` re-embedded from the chunks table. */
  ghost predicate Rebuilt(db: Db, side: ChunkTable, v: VersionId) {
    forall k: ChunkKey :: k.version == v ==>
      (k in side <==> k in db.chunks) && (k in side ==> SameText(side[k], db.chunks[k]))
  }

  ghost predicate LiveVersionOf(db: Db, v: VersionId) {
    exists d :: d in LiveDocs(db) && db.docs[d].current == Some(v)
  }

  /** Everything rebuilt, and nothing beyond the live versions. */
  ghost predicate FullyRebuilt(db: Db, side: ChunkTable) {
    && (forall d :: d in LiveDocs(db) ==> Rebuilt(db, side, db.docs[d].current.value))
    && (forall k :: k in side ==> LiveVersionOf(db, k.version))
  }

  lemma RebuiltIsSound(db: Db, side: ChunkTable)
    requires Inv(db) && FullyRebuilt(db, side)
    ensures ChunksSound(Swapped(db, side))
  {
    forall k | k in side ensures ChunkSound(Swapped(db, side), k) {
      var d :| d in LiveDocs(db) && db.docs[d].current == Some(k.version);
      assert Rebuilt(db, side, k.version);
      assert ChunkSound(db, k);
    }
  }

  /** A swap on the text-reuse path changes no live (version, position, text). */
  lemma SwapKeepsLiveText(db: Db, side: ChunkTable)
    requires Inv(db) && FullyRebuilt(db, side)
    ensures LiveView(Swapped(db, side)).Keys == LiveView(db).Keys
    ensures forall k :: k in LiveView(db) ==> SameText(LiveView(Swapped(db, side))[k], LiveView(db)[k])
  {
    var db' := Swapped(db, side);
    forall k ensures k in LiveView(db') <==> k in LiveView(db) {
      if k in db.chunks && InLiveView(db, k) {
        assert Rebuilt(db, side, db.docs[db.chunks[k].doc].current.value);
      }
      if k in side && InLiveView(db', k) {
        assert Rebuilt(db, side, db.docs[side[k].doc].current.value);
      }
    }
    forall k | k in LiveView(db) ensures SameText(LiveView(db')[k], LiveView(db)[k]) {
      assert Rebuilt(db, side, db.docs[db.chunks[k].doc].current.value);
    }
  }

  /** A complete rebuild passes the coverage check exactly when no live version
      is without chunks: one empty document blocks the swap. */
  lemma RebuiltIsCoveredIff(db: Db, side: ChunkTable)
    requires FullyRebuilt(db, side)
    ensures Covered(db, side) <==> forall d :: d in LiveDocs(db) ==> HasRow(db.chunks, db.docs[d].current.value)
  {
    CoveredMeans(db, side);
    forall d | d in LiveDocs(db)
      ensures HasRow(side, db.docs[d].current.value) <==> HasRow(db.chunks, db.docs[d].current.value)
    {
      var v := db.docs[d].current.value;
      assert Rebuilt(db, side, v);
      if k :| k in side && k.version == v { assert k in db.chunks; }
      if k :| k in db.chunks && k.version == v { assert k in side; }
    }
  }

  // ---- What the swap forgets -----------------------------------------------

  /** What a reader gets of a chunk besides its vector. */
  datatype Text = Text(headingPath: seq<string>, content: string, tokenCount: int)

  ghost function Texts(cs: map<int, ChunkBody>): map<int, Text> {
    map p | p in cs :: Text(cs[p].headingPath, cs[p].content, cs[p].tokenCount)
  }

  /** Versions that are not live when the swap commits keep their row but lose
      their chunks. A later rollback to such a version reuses it, so the document
      shows the text that it should, position by position, if and only if the
      version was live or had no chunks to lose. */
  lemma RollbackAfterSwap(db: Db, side: ChunkTable, inp: PutInput, now: Time, fd: DocId, fv: VersionId, v: VersionId)
    requires Inv(db) && FullyRebuilt(db, side) && v in db.versions
    requires ValidPut(inp) && Fresh(db, fd, fv)
    requires db.versions[v].doc in db.docs
    requires db.versions[v].hash == inp.hash && db.docs[db.versions[v].doc].key == KeyOf(inp)
    ensures var before, after := CommitPut(db, inp, now, fd, fv), CommitPut(Swapped(db, side), inp, now, fd, fv);
      && Shown(before, KeyOf(inp)) == VersionChunks(db.chunks, v)
      && EntryAt(after, KeyOf(inp)) == Some(Entry(inp.hash, true))
      && (Texts(Shown(after, KeyOf(inp))) == Texts(Shown(before, KeyOf(inp)))
          <==> LiveVersionOf(db, v) || VersionChunks(db.chunks, v) == map[])
      && (!LiveVersionOf(db, v) ==> Shown(after, KeyOf(inp)) == map[])
  {
    var db' := Swapped(db, side);
    RebuiltIsSound(db, side);
    SwapKeepsInv(db, side);
    StoredIs(db, v);
    StoredIs(db', v);
    assert Reuses(db, inp, fd) by { ReusesVersion(db, inp, fd, v); }
    assert Reuses(db', inp, fd) by { ReusesVersion(db', inp, fd, v); }
    CommitOwn(db, inp, now, fd, fv);
    CommitOwn(db', inp, now, fd, fv);
    SwappedTexts(db, side, v);
  }

  /** The swap keeps a version's text exactly when it was live or empty. */
  lemma SwappedTexts(db: Db, side: ChunkTable, v: VersionId)
    requires FullyRebuilt(db, side)
    ensures Texts(VersionChunks(side, v)) == Texts(VersionChunks(db.chunks, v))
       <==> LiveVersionOf(db, v) || VersionChunks(db.chunks, v) == map[]
    ensures !LiveVersionOf(db, v) ==> VersionChunks(side, v) == map[]
  {
    SwappedChunks(db, side, v);
    if !LiveVersionOf(db, v) { TextsEmpty(VersionChunks(db.chunks, v)); }
  }

  lemma TextsEmpty(cs: map<int, ChunkBody>)
    ensures Texts(cs) == map[] <==> cs == map[]
  {
    assert Texts(cs).Keys == cs.Keys;
  }

  lemma ReusesVersion(db: Db, inp: PutInput, fd: DocId, v: VersionId)
    requires Inv(db) && inp.source.Some? && v in db.versions && db.versions[v].doc in db.docs
    requires db.versions[v].hash == inp.hash && db.docs[db.versions[v].doc].key == KeyOf(inp)
    ensures Reuses(db, inp, fd)
  {
    DocOfUnique(db, db.versions[v].doc);
    VersionOfUnique(db, v);
  }

  lemma SwappedChunks(db: Db, side: ChunkTable, v: VersionId)
    requires FullyRebuilt(db, side)
    ensures LiveVersionOf(db, v) ==> Texts(VersionChunks(side, v)) == Texts(VersionChunks(db.chunks, v))
    ensures !LiveVersionOf(db, v) ==> VersionChunks(side, v) == map[]
  {
    if LiveVersionOf(db, v) { RebuiltTexts(db, side, v); }
  }

  lemma RebuiltTexts(db: Db, side: ChunkTable, v: VersionId)
    requires Rebuilt(db, side, v)
    ensures Texts(VersionChunks(side, v)) == Texts(VersionChunks(db.chunks, v))
  {
    var a, b := VersionChunks(side, v), VersionChunks(db.chunks, v);
    forall p ensures (p in a <==> p in b) && (p in a ==> Texts(a)[p] == Texts(b)[p]) {
      RebuiltAt(db, side, v, p);
    }
    assert Texts(a).Keys == Texts(b).Keys;
  }

  lemma RebuiltAt(db: Db, side: ChunkTable, v: VersionId, p: int)
    requires Rebuilt(db, side, v)
    ensures var a, b := VersionChunks(side, v), VersionChunks(db.chunks, v);
      (p in a <==> p in b) && (p in a ==> Texts(a)[p] == Texts(b)[p])
  {
    var k := ChunkKey(v, p);
    assert k in side <==> k in db.chunks;
  }

  /** The same loss on the hash short-circuit: a document deleted before the
      reindex and touched back afterwards is active and shows nothing. */
  lemma ReviveAfterSwap(db: Db, side: ChunkTable, d: DocId, now: Time)
    requires Inv(db) && FullyRebuilt(db, side) && d in db.docs && db.docs[d].status == Deleted
    ensures db.docs[d].current.Some? && db.docs[d].current.value in db.versions
    ensures var v, key := db.docs[d].current.value, db.docs[d].key;
      var before := TouchIfUnchanged(db, key, db.versions[v].hash, now);
      var after := TouchIfUnchanged(Swapped(db, side), key, db.versions[v].hash, now);
      && Shown(before, key) == VersionChunks(db.chunks, v)
      && EntryAt(after, key) == Some(Entry(db.versions[v].hash, true)) && Shown(after, key) == map[]
  {
    assert OwnsCurrent(db, d);
    var v, key := db.docs[d].current.value, db.docs[d].key;
    var hash := db.versions[v].hash;
    RebuiltIsSound(db, side);
    SwapKeepsInv(db, side);
    TouchShows(db, d, now);
    TouchShows(Swapped(db, side), d, now);
    forall e | e in LiveDocs(db) ensures OwnsCurrent(db, e) {}
    assert !LiveVersionOf(db, v);
    SwappedChunks(db, side, v);
  }

  lemma TouchShows(db: Db, d: DocId, now: Time)
    requires Inv(db) && d in db.docs
    ensures db.docs[d].current.Some? && db.docs[d].current.value in db.versions
    ensures var v, key := db.docs[d].current.value, db.docs[d].key;
      var after := TouchIfUnchanged(db, key, db.versions[v].hash, now);
      && EntryAt(after, key) == Some(Entry(db.versions[v].hash, true))
      && Shown(after, key) == VersionChunks(db.chunks, v)
  {
    assert OwnsCurrent(db, d);
    DocOfUnique(db, d);
    var hash := db.versions[db.docs[d].current.value].hash;
    TouchIfUnchangedKeepsInv(db, db.docs[d].key, hash, now);
    EntryIs(TouchIfUnchanged(db, db.docs[d].key, hash, now), d);
  }
}
