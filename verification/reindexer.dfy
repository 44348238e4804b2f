/** The resumable operation that drives the reindex, one live version at a time
    in document order, from a cursor its caller keeps. */
module ReindexRun {
  import opened Basics
  import opened Rows
  import opened StoreSteps
  import opened Reindex

  /** Everything up to the cursor is rebuilt, and only live versions have rows. */
  ghost predicate RebuiltUpTo(db: Db, side: ChunkTable, cursor: int) {
    && (forall d :: d in LiveDocs(db) && d <= cursor ==> Rebuilt(db, side, db.docs[d].current.value))
    && (forall k :: k in side ==> LiveVersionOf(db, k.version))
  }

  /** Live documents the cursor has not reached. */
  ghost function Left(db: Db, cursor: int): set<DocId> {
    set d | d in LiveDocs(db) && d > cursor
  }

  /** A stored row under its new vector and model. */
  ghost predicate RowFrom(db: Db, v: VersionId, model: string, embed: string -> seq<real>, r: NewRow) {
    && r.version == v && KeyOfRow(r) in db.chunks && SameText(Written(r, 0), db.chunks[KeyOfRow(r)])
    && r.body.model == model && r.body.embedding == embed(r.body.content)
  }

  /** Every row is its text under the model's vector. */
  ghost predicate Revectored(t: ChunkTable, model: string, embed: string -> seq<real>) {
    forall k :: k in t ==> t[k].body.embedding == embed(t[k].body.content) && t[k].body.model == model
  }

  lemma InsertRevectors(db: Db, side: ChunkTable, hashRequired: bool, v: VersionId, rows: seq<NewRow>, now: Time,
                        model: string, embed: string -> seq<real>)
    requires Accepts(db, side, hashRequired, v, rows) && Reembeds(db, v, model, embed, rows)
    requires Revectored(side, model, embed)
    ensures Revectored(AfterInsert(side, v, rows, now), model, embed)
  {
    var after := AfterInsert(side, v, rows, now);
    InsertStores(db, side, hashRequired, v, rows, now);
    forall k | k in after
      ensures after[k].body.embedding == embed(after[k].body.content) && after[k].body.model == model
    {
      if i :| 0 <= i < |rows| && KeyOfRow(rows[i]) == k { assert RowFrom(db, v, model, embed, rows[i]); }
    }
  }

  /** Every stored row of the version, once. */
  ghost predicate Reembeds(db: Db, v: VersionId, model: string, embed: string -> seq<real>, rows: seq<NewRow>) {
    && (forall r :: r in rows ==> RowFrom(db, v, model, embed, r))
    && (forall i, j :: 0 <= i < j < |rows| ==> rows[i].position != rows[j].position)
    && (forall k: ChunkKey :: k in db.chunks && k.version == v ==> exists r :: r in rows && KeyOfRow(r) == k)
  }

  /** The model embeds every chunk of the version, and no column is missing. */
  ghost predicate Rebuildable(db: Db, v: VersionId, hashRequired: bool, model: string, embed: string -> seq<real>) {
    forall k: ChunkKey :: k in db.chunks && k.version == v ==>
      !hashRequired && model != "" && embed(db.chunks[k].body.content) != []
  }

  lemma ReembeddedAccepted(db: Db, side: ChunkTable, v: VersionId, hashRequired: bool, model: string,
                           embed: string -> seq<real>, rows: seq<NewRow>)
    requires Inv(db) && Reembeds(db, v, model, embed, rows)
    ensures Accepts(db, side, hashRequired, v, rows) <==> Rebuildable(db, v, hashRequired, model, embed)
  {
    if Accepts(db, side, hashRequired, v, rows) {
      if hashRequired { RequiredHashTakesNoRow(db, side, v, rows); }
      forall k: ChunkKey | k in db.chunks && k.version == v
        ensures !hashRequired && model != "" && embed(db.chunks[k].body.content) != []
      {
        var r :| r in rows && KeyOfRow(r) == k;
        assert RowReady(db, r) && RowFrom(db, v, model, embed, r);
      }
    }
    if Rebuildable(db, v, hashRequired, model, embed) {
      forall r | r in rows ensures RowReady(db, r) && !hashRequired {
        assert RowFrom(db, v, model, embed, r) && ChunkSound(db, KeyOfRow(r));
      }
      forall i | 0 <= i < |rows| ensures KeyOfRow(rows[i]) !in side - RowsOf(side, v) {
        assert RowFrom(db, v, model, embed, rows[i]);
      }
    }
  }

  /** Where a hash is required only a version without chunks can be rebuilt. */
  lemma RequiredHashRebuildsNothing(db: Db, model: string, embed: string -> seq<real>)
    ensures forall v :: Rebuildable(db, v, true, model, embed) ==> !HasRow(db.chunks, v)
  {
  }

  function AtLeastOne(limit: int): (n: nat)
    ensures n >= 1 && (limit > 0 ==> n == limit) && (limit <= 0 ==> n == 1)
  {
    if limit <= 0 then 1 else limit
  }

  method Lowest(rest: set<DocId>) returns (m: DocId)
    requires rest != {}
    ensures m in rest && forall d :: d in rest ==> m <= d
  {
    m :| m in rest;
    var todo: set<DocId> := rest;
    while todo != {}
      invariant todo <= rest && m in rest && forall d :: d in rest && d !in todo ==> m <= d
      decreases |todo|
    {
      var d: DocId :| d in todo;
      if d < m { m := d; }
      todo := todo - {d};
    }
  }

  class Reindexer {
    var db: Db
    var side: Option<ChunkTable>     // chunks_new
    var retired: Option<ChunkTable>  // chunks_old
    const hashRequired: bool         // content_hash is not null on chunks, hence on chunks_new
    const model: string
    const embed: string -> seq<real> // the new model; an empty vector is a failure

    constructor (db: Db, hashRequired: bool, model: string, embed: string -> seq<real>)
      ensures this.db == db && side == None && retired == None
      ensures this.hashRequired == hashRequired && this.model == model && this.embed == embed
    {
      this.db, side, retired := db, None, None;
      this.hashRequired, this.model, this.embed := hashRequired, model, embed;
    }

    /** An existing side table is resumed, never emptied. */
    method Prepare(dim: int) returns (ok: bool)
      modifies this`side
      ensures ok <==> dim > 0 && model != ""
      ensures side == if !ok then old(side) else if old(side).Some? then old(side) else Some(map[])
    {
      if dim <= 0 || model == "" { return false; }
      if side.None? { side := Some(map[]); }
      return true;
    }

    /** The next live documents after the cursor, in id order; a limit that is not
        positive counts as one. */
    method LiveVersionsAfter(cursor: int, limit: int) returns (ds: seq<DocId>)
      ensures |ds| <= AtLeastOne(limit)
      ensures forall i :: 0 <= i < |ds| ==> ds[i] in LiveDocs(db) && ds[i] > cursor
      ensures forall i, j :: 0 <= i < j < |ds| ==> ds[i] < ds[j]
      ensures forall d :: d in LiveDocs(db) && d > cursor && d !in ds ==>
        |ds| == AtLeastOne(limit) && forall i :: 0 <= i < |ds| ==> ds[i] < d
    {
      var n := AtLeastOne(limit);
      ds := [];
      var rest: set<DocId> := set d | d in LiveDocs(db) && d > cursor;
      while |ds| < n && rest != {}
        invariant |ds| <= n
        invariant forall d :: d in rest ==> d in LiveDocs(db) && d > cursor
        invariant forall i :: 0 <= i < |ds| ==> ds[i] in LiveDocs(db) && ds[i] > cursor
        invariant forall i, j :: 0 <= i < j < |ds| ==> ds[i] < ds[j]
        invariant forall i, d :: 0 <= i < |ds| && d in rest ==> ds[i] < d
        invariant forall d :: d in LiveDocs(db) && d > cursor ==> d in ds || d in rest
        decreases n - |ds|
      {
        var m := Lowest(rest);
        ds, rest := ds + [m], rest - {m};
      }
    }

    /** Nothing stands in the way of rebuilding a version. */
    ghost predicate CanRebuild(v: VersionId)
      reads this`db
    {
      Rebuildable(db, v, hashRequired, model, embed)
    }

    /** The reuse path: a version's stored rows, re-embedded. */
    method RowsFor(v: VersionId) returns (rows: seq<NewRow>)
      ensures Reembeds(db, v, model, embed, rows)
    {
      rows := [];
      var rest := RowsOf(db.chunks, v);
      while rest != {}
        invariant rest <= RowsOf(db.chunks, v)
        invariant forall r :: r in rows ==> RowFrom(db, v, model, embed, r) && KeyOfRow(r) !in rest
        invariant forall i, j :: 0 <= i < j < |rows| ==> rows[i].position != rows[j].position
        invariant forall k :: k in RowsOf(db.chunks, v) && k !in rest ==> exists r :: r in rows && KeyOfRow(r) == k
        decreases |rest|
      {
        var k :| k in rest;
        var c := db.chunks[k];
        var r := NewRow(c.doc, v, c.source, k.position, c.body.(embedding := embed(c.body.content), model := model));
        assert KeyOfRow(r) == k && RowFrom(db, v, model, embed, r);
        forall i | 0 <= i < |rows| ensures rows[i].position != k.position {
          assert rows[i] in rows;
        }
        ghost var rows0 := rows;
        rows, rest := rows + [r], rest - {k};
        forall k' | k' in RowsOf(db.chunks, v) && k' !in rest ensures exists r' :: r' in rows && KeyOfRow(r') == k' {
          if k' == k { assert r in rows; }
          else {
            var r' :| r' in rows0 && KeyOfRow(r') == k';
            assert r' in rows;
          }
        }
      }
      forall k: ChunkKey | k in db.chunks && k.version == v ensures exists r :: r in rows && KeyOfRow(r) == k {
        assert k in RowsOf(db.chunks, v);
      }
    }

    /** One version's rows, replaced whole or not at all. */
    method InsertChunksNew(v: VersionId, rows: seq<NewRow>, now: Time) returns (ok: bool)
      requires side.Some?
      modifies this`side
      ensures side.Some?
      ensures ok == Accepts(db, old(side).value, hashRequired, v, rows)
      ensures side.value == if ok then AfterInsert(old(side).value, v, rows, now) else old(side).value
      ensures ok ==> forall i :: 0 <= i < |rows| ==>
        KeyOfRow(rows[i]) in side.value && StoresRow(side.value[KeyOfRow(rows[i])], rows[i], now)
    {
      var kept := side.value - RowsOf(side.value, v);
      var t := kept;
      var i := 0;
      while i < |rows|
        invariant 0 <= i <= |rows|
        invariant side == old(side) && t == kept + Table(rows[..i], now)
        invariant Accepts(db, side.value, hashRequired, v, rows[..i])
      {
        var r := rows[i];
        KeyTaken(kept, rows, i, now);
        AcceptsNext(db, side.value, hashRequired, v, rows, i);
        if r.body.embedding == [] || r.body.model == "" || r.doc !in db.docs || r.version !in db.versions
           || (hashRequired && Written(r, now).body.hash.None?) || KeyOfRow(r) in t
        {
          AcceptsPrefix(db, side.value, hashRequired, v, rows, i + 1);
          return false;
        }
        t := t[KeyOfRow(r) := Written(r, now)];
        assert rows[..i + 1][..i] == rows[..i];
        i := i + 1;
      }
      assert rows[..i] == rows;
      InsertStores(db, side.value, hashRequired, v, rows, now);
      side := Some(t);
      return true;
    }

    /** Every live version from a up to b can be rebuilt. */
    ghost predicate CanRebuildTo(a: int, b: int)
      reads this`db
    {
      forall d :: d in LiveDocs(db) && a < d <= b ==> CanRebuild(db.docs[d].current.value)
    }

    ghost predicate CanRebuildFrom(a: int)
      reads this`db
    {
      forall d :: d in LiveDocs(db) && a < d ==> CanRebuild(db.docs[d].current.value)
    }

    /** One batch: returns the last document indexed, whether all went well, and
        whether no live version is left after it. */
    method Step(start: int, batch: nat, now: Time) returns (cursor: int, ok: bool, done: bool)
      requires Inv(db) && side.Some? && batch > 0 && RebuiltUpTo(db, side.value, start)
      modifies this`side
      ensures side.Some? && RebuiltUpTo(db, side.value, cursor) && cursor >= start
      ensures ok ==> CanRebuildTo(start, cursor)
      ensures !ok ==> !CanRebuildFrom(start)
      ensures Revectored(old(side).value, model, embed) ==> Revectored(side.value, model, embed)
      ensures done ==> ok && Left(db, cursor) == {}
      ensures ok && !done ==> |Left(db, cursor)| < |Left(db, start)|
    {
      cursor := start;
      var ds := LiveVersionsAfter(start, batch);
      var i := 0;
      while i < |ds|
        invariant 0 <= i <= |ds|
        invariant cursor == if i == 0 then start else ds[i - 1]
        invariant side.Some? && RebuiltUpTo(db, side.value, cursor) && CanRebuildTo(start, cursor)
        invariant Revectored(old(side).value, model, embed) ==> Revectored(side.value, model, embed)
      {
        var inserted := StepVersion(ds, i, start, cursor, now);
        if !inserted { return cursor, false, false; }
        cursor, i := ds[i], i + 1;
      }
      ok, done := true, |ds| < batch;
      if !done { FewerLeft(db, start, cursor, ds[0]); }
    }

    /** One version of a batch: it goes in exactly when it can be rebuilt. */
    method StepVersion(ds: seq<DocId>, i: nat, start: int, cursor: int, now: Time) returns (ok: bool)
      requires Inv(db) && side.Some? && RebuiltUpTo(db, side.value, cursor)
      requires i < |ds| && ds[i] in LiveDocs(db) && cursor == (if i == 0 then start else ds[i - 1])
      requires forall a, b :: 0 <= a < b < |ds| ==> ds[a] < ds[b]
      requires forall a :: 0 <= a < |ds| ==> ds[a] > start
      requires forall d :: d in LiveDocs(db) && d > start && d !in ds ==> forall a :: 0 <= a < |ds| ==> ds[a] < d
      modifies this`side
      ensures side.Some? && RebuiltUpTo(db, side.value, if ok then ds[i] else cursor)
      ensures ok <==> CanRebuild(db.docs[ds[i]].current.value)
      ensures Revectored(old(side).value, model, embed) ==> Revectored(side.value, model, embed)
      ensures ok && CanRebuildTo(start, cursor) ==> CanRebuildTo(start, ds[i])
    {
      var d := ds[i];
      var v := db.docs[d].current.value;
      var rows := RowsFor(v);
      ghost var side0 := side.value;
      assert OwnsCurrent(db, d);
      ReembeddedAccepted(db, side0, v, hashRequired, model, embed, rows);
      ok := InsertChunksNew(v, rows, now);
      if !ok { return; }
      if Revectored(side0, model, embed) { InsertRevectors(db, side0, hashRequired, v, rows, now, model, embed); }
      NoneBetween(db, cursor, ds, start, i);
      InsertRebuilds(db, side0, d, v, rows, now, cursor, model, embed);
    }

    /** Step, repeated. A failure leaves a cursor that a later Run may start from. */
    method Run(start: int, batch: nat, now: Time) returns (cursor: int, done: bool)
      requires Inv(db) && side.Some? && batch > 0 && RebuiltUpTo(db, side.value, start)
      modifies this`side
      ensures side.Some? && RebuiltUpTo(db, side.value, cursor)
      ensures done <==> CanRebuildFrom(start)
      ensures Revectored(old(side).value, model, embed) ==> Revectored(side.value, model, embed)
      ensures done ==> Left(db, cursor) == {} && FullyRebuilt(db, side.value)
    {
      cursor := start;
      while true
        invariant side.Some? && RebuiltUpTo(db, side.value, cursor) && cursor >= start
        invariant CanRebuildTo(start, cursor)
        invariant Revectored(old(side).value, model, embed) ==> Revectored(side.value, model, embed)
        decreases |Left(db, cursor)|
      {
        var next, ok, finished := Step(cursor, batch, now);
        if !ok { return next, false; }
        cursor := next;
        if finished {
          NoneLeft(db, side.value, cursor);
          assert forall d :: d in LiveDocs(db) ==> d !in Left(db, cursor);
          return cursor, true;
        }
      }
    }

    /** Prepare, Run from the start, and Swap: the swap happens if and only if the
        arguments are good and each live version has chunks, every one of which can
        be re-embedded and written. Where a hash is required that means that
        nothing is live. */
    method Reindex(dim: int, batch: nat, now: Time) returns (swapped: bool)
      requires Inv(db) && side.None? && batch > 0
      modifies this
      ensures swapped <==> dim > 0 && model != "" && forall d :: d in LiveDocs(old(db)) ==>
        HasRow(old(db).chunks, old(db).docs[d].current.value) && old(CanRebuild(db.docs[d].current.value))
      ensures hashRequired ==> (swapped <==> dim > 0 && model != "" && LiveDocs(old(db)) == {})
      ensures swapped ==>
        && FullyRebuilt(old(db), db.chunks)
        && db == Swapped(old(db), db.chunks)
        && Inv(db)
        && retired == Some(old(db).chunks)
      ensures swapped ==> forall k :: k in db.chunks ==>
        db.chunks[k].body.embedding == embed(db.chunks[k].body.content) && db.chunks[k].body.model == model
      ensures !swapped ==> db == old(db) && retired == old(retired)
    {
      swapped := Prepare(dim);
      if !swapped { return; }
      var cursor, done := Run(-1, batch, now);
      if !done { return false; }
      ghost var db0, rebuilt := db, side.value;
      RebuiltIsCoveredIff(db, rebuilt);
      RebuiltIsSound(db, rebuilt);
      SwapKeepsInv(db, rebuilt);
      if hashRequired { RequiredHashRebuildsNothing(db, model, embed); }
      swapped := Swap();
    }

    method Verify(t: ChunkTable) returns (ok: bool)
      ensures ok == Covered(db, t)
    {
      return |LiveDocs(db)| == |CoveredDocs(db, t)|;
    }

    /** Verify, then rename both tables in one transaction. */
    method Swap() returns (ok: bool)
      requires side.Some?
      modifies this
      ensures ok == Covered(old(db), old(side).value)
      ensures ok ==> db == Swapped(old(db), old(side).value) && retired == Some(old(db).chunks) && side == None
      ensures !ok ==> db == old(db) && side == old(side) && retired == old(retired)
    {
      ok := Verify(side.value);
      if ok {
        var t := side.value;
        retired, side := Some(db.chunks), None;
        db := db.(chunks := t);
      }
    }

    /** The old table goes only while the live one covers every live version. */
    method DropOld() returns (ok: bool)
      modifies this`retired
      ensures ok == Covered(db, db.chunks)
      ensures retired == if ok then None else old(retired)
    {
      ok := Verify(db.chunks);
      if ok { retired := None; }
    }
  }

  /** One row more is accepted when the row itself is in order and its key is free. */
  lemma AcceptsNext(db: Db, side: ChunkTable, hashRequired: bool, v: VersionId, rows: seq<NewRow>, i: nat)
    requires i < |rows| && Accepts(db, side, hashRequired, v, rows[..i])
    ensures Accepts(db, side, hashRequired, v, rows[..i + 1]) <==>
      && RowReady(db, rows[i]) && (hashRequired ==> Written(rows[i], 0).body.hash.Some?)
      && KeyOfRow(rows[i]) !in side - RowsOf(side, v)
      && forall j :: 0 <= j < i ==> KeyOfRow(rows[j]) != KeyOfRow(rows[i])
  {
    var a, b := rows[..i], rows[..i + 1];
    assert b == a + [rows[i]] && b[i] == rows[i];
    forall j | 0 <= j < i ensures a[j] == rows[j] == b[j] {}
  }

  lemma AcceptsPrefix(db: Db, side: ChunkTable, hashRequired: bool, v: VersionId, rows: seq<NewRow>, i: nat)
    requires i <= |rows|
    ensures Accepts(db, side, hashRequired, v, rows) ==> Accepts(db, side, hashRequired, v, rows[..i])
  {
  }

  lemma KeyTaken(kept: ChunkTable, rows: seq<NewRow>, i: nat, now: Time)
    requires i < |rows|
    ensures KeyOfRow(rows[i]) in kept + Table(rows[..i], now)
       <==> KeyOfRow(rows[i]) in kept || exists j :: 0 <= j < i && KeyOfRow(rows[j]) == KeyOfRow(rows[i])
  {
    TableAt(rows[..i], now);
    if j :| 0 <= j < i && KeyOfRow(rows[j]) == KeyOfRow(rows[i]) { assert rows[..i][j] == rows[j]; }
  }

  lemma NoneBetween(db: Db, cursor: int, ds: seq<DocId>, before: int, i: nat)
    requires i < |ds| && cursor == (if i == 0 then before else ds[i - 1])
    requires forall a, b :: 0 <= a < b < |ds| ==> ds[a] < ds[b]
    requires forall d :: d in LiveDocs(db) && d > before && d !in ds ==> forall a :: 0 <= a < |ds| ==> ds[a] < d
    requires forall a :: 0 <= a < |ds| ==> ds[a] > before
    ensures forall d :: d in LiveDocs(db) && cursor < d <= ds[i] ==> d == ds[i]
  {
    forall d | d in LiveDocs(db) && cursor < d <= ds[i] ensures d == ds[i] {
      assert d > before;
      if d in ds {
        var a :| 0 <= a < |ds| && ds[a] == d;
        assert a == i;
      }
    }
  }

  lemma InsertRebuildsOwn(db: Db, side: ChunkTable, v: VersionId, rows: seq<NewRow>, now: Time,
                          model: string, embed: string -> seq<real>)
    requires Reembeds(db, v, model, embed, rows)
    ensures Rebuilt(db, AfterInsert(side, v, rows, now), v)
    ensures forall k :: k in Table(rows, now) ==> k.version == v
  {
    var side' := AfterInsert(side, v, rows, now);
    TableAt(rows, now);
    forall k | k in Table(rows, now)
      ensures k.version == v && k in db.chunks && SameText(Table(rows, now)[k], db.chunks[k])
    {
      var i :| 0 <= i < |rows| && KeyOfRow(rows[i]) == k && Table(rows, now)[k] == Written(rows[i], now);
      assert rows[i] in rows && RowFrom(db, v, model, embed, rows[i]);
    }
    forall k: ChunkKey | k.version == v
      ensures (k in side' <==> k in db.chunks) && (k in side' ==> SameText(side'[k], db.chunks[k]))
    {
      if k in db.chunks {
        var r :| r in rows && KeyOfRow(r) == k;
        var i :| 0 <= i < |rows| && rows[i] == r;
        assert k in Table(rows, now);
      }
    }
  }

  /** A version other than the inserted one stays as it was rebuilt. */
  lemma InsertKeepsOther(db: Db, side: ChunkTable, table: ChunkTable, v: VersionId, w: VersionId)
    requires (forall k :: k in table ==> k.version == v) && w != v && Rebuilt(db, side, w)
    ensures Rebuilt(db, (side - RowsOf(side, v)) + table, w)
  {
    var side' := (side - RowsOf(side, v)) + table;
    forall k: ChunkKey | k.version == w ensures (k in side' <==> k in side) && (k in side' ==> side'[k] == side[k]) {}
  }

  lemma InsertRebuilds(db: Db, side: ChunkTable, d: DocId, v: VersionId, rows: seq<NewRow>, now: Time,
                       cursor: int, model: string, embed: string -> seq<real>)
    requires Inv(db) && d in LiveDocs(db) && db.docs[d].current == Some(v) && RebuiltUpTo(db, side, cursor)
    requires forall e :: e in LiveDocs(db) && cursor < e <= d ==> e == d
    requires Reembeds(db, v, model, embed, rows)
    ensures RebuiltUpTo(db, AfterInsert(side, v, rows, now), d)
  {
    var side' := AfterInsert(side, v, rows, now);
    InsertRebuildsOwn(db, side, v, rows, now, model, embed);
    forall e | e in LiveDocs(db) && e <= d ensures Rebuilt(db, side', db.docs[e].current.value) {
      var w := db.docs[e].current.value;
      if w != v {
        assert e <= cursor && Rebuilt(db, side, w);
        InsertKeepsOther(db, side, Table(rows, now), v, w);
      }
    }
    forall k | k in side' ensures LiveVersionOf(db, k.version) {
      if k in Table(rows, now) { assert k.version == v; }
    }
  }

  lemma FewerLeft(db: Db, before: int, cursor: int, d: DocId)
    requires d in LiveDocs(db) && before < d <= cursor
    ensures |Left(db, cursor)| < |Left(db, before)|
  {
    var a, b := Left(db, cursor), Left(db, before);
    assert b == a + (b - a) && d in b - a;
    assert |b| == |a| + |b - a|;
  }

  lemma NoneLeft(db: Db, side: ChunkTable, cursor: int)
    requires RebuiltUpTo(db, side, cursor) && Left(db, cursor) == {}
    ensures FullyRebuilt(db, side)
  {
    forall d | d in LiveDocs(db) ensures Rebuilt(db, side, db.docs[d].current.value) {
      assert d !in Left(db, cursor);
    }
  }
}
