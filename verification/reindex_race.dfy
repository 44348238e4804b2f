/** A rebuild while the store goes on working: its transactions and the insertions
    into the side table in any order, and what a swap then shows. */
module ReindexRace {
  import opened Basics
  import opened Rows
  import opened StoreSteps
  import opened Refinement
  import opened Reindex

  datatype Event = Transact(step: Step) | Insert(call: Call)

  datatype Both = Both(db: Db, side: ChunkTable)

  /** The side table has the foreign keys of chunks, on delete cascade. */
  ghost function Cascaded(side: ChunkTable, db: Db): ChunkTable {
    map k | k in side && k.version in db.versions && side[k].doc in db.docs :: side[k]
  }

  ghost predicate Possible(s: Both, e: Event) {
    match e case Transact(step) => Enabled(s.db, step) case Insert(c) => OwnRows(s.db, c)
  }

  ghost function Next(s: Both, hashRequired: bool, e: Event): Both
    requires Possible(s, e)
  {
    match e
    case Transact(step) => Both(Apply(s.db, step), Cascaded(s.side, Apply(s.db, step)))
    case Insert(c) =>
      if Accepts(s.db, s.side, hashRequired, c.version, c.rows)
      then s.(side := AfterInsert(s.side, c.version, c.rows, c.now)) else s
  }

  ghost predicate Happens(s: Both, hashRequired: bool, events: seq<Event>)
    decreases |events|
  {
    events == [] || (Possible(s, events[0]) && Happens(Next(s, hashRequired, events[0]), hashRequired, events[1..]))
  }

  ghost function Afterwards(s: Both, hashRequired: bool, events: seq<Event>): Both
    requires Happens(s, hashRequired, events)
    decreases |events|
  {
    if events == [] then s else Afterwards(Next(s, hashRequired, events[0]), hashRequired, events[1..])
  }

  /** Whatever survives keeps its document, key and source. */
  ghost predicate Settles(db: Db, db': Db) {
    && (forall v :: v in db.versions && v in db'.versions ==> db'.versions[v].doc == db.versions[v].doc)
    && (forall d :: d in db.docs && d in db'.docs ==> db'.docs[d].key == db.docs[d].key)
  }

  lemma StepSettles(db: Db, step: Step)
    requires Inv(db) && Enabled(db, step)
    ensures Settles(db, Apply(db, step))
  {
    if step.PutCommit? {
      CommitsTables(db, step.inp, step.now, step.freshDoc, step.freshVersion);
      var d := PutDoc(db, step.inp, step.freshDoc);
      assert forall e :: e in db.docs && e != d ==> Apply(db, step).docs[e] == db.docs[e];
    } else {
      StepRetains(db, step);
    }
  }

  lemma SettledSide(db: Db, db': Db, side: ChunkTable)
    requires SideSound(db, side) && Settles(db, db')
    ensures SideSound(db', Cascaded(side, db'))
  {
    forall k | k in Cascaded(side, db') ensures ChunkSound(Swapped(db', Cascaded(side, db')), k) {
      assert ChunkSound(Swapped(db, side), k);
    }
  }

  /** A transaction takes from the side table only what goes with a version it
      removes. */
  lemma TransactionSparesSide(s: Both, hashRequired: bool, step: Step)
    requires Inv(s.db) && SideSound(s.db, s.side) && Enabled(s.db, step)
    ensures var s' := Next(s, hashRequired, Transact(step));
      && s'.db == Apply(s.db, step)
      && (forall k :: k in s'.side <==> k in s.side && k.version in s'.db.versions)
      && (forall k :: k in s'.side ==> s'.side[k] == s.side[k])
  {
    StepKeepsInv(s.db, step);
    StepSettles(s.db, step);
    var db' := Apply(s.db, step);
    forall k | k in s.side && k.version in db'.versions ensures s.side[k].doc in db'.docs {
      assert ChunkSound(Swapped(s.db, s.side), k) && HasDoc(db', k.version);
    }
  }

  lemma EventKeepsSound(s: Both, hashRequired: bool, e: Event)
    requires Inv(s.db) && SideSound(s.db, s.side) && Possible(s, e)
    ensures var s' := Next(s, hashRequired, e); Inv(s'.db) && SideSound(s'.db, s'.side)
  {
    match e
    case Transact(step) =>
      StepKeepsInv(s.db, step);
      StepSettles(s.db, step);
      SettledSide(s.db, Apply(s.db, step), s.side);
    case Insert(c) =>
      if Accepts(s.db, s.side, hashRequired, c.version, c.rows) { InsertKeepsSound(s.db, s.side, hashRequired, c); }
  }

  lemma {:induction false} EventsKeepSound(s: Both, hashRequired: bool, events: seq<Event>)
    requires Inv(s.db) && SideSound(s.db, s.side) && Happens(s, hashRequired, events)
    ensures var s' := Afterwards(s, hashRequired, events); Inv(s'.db) && SideSound(s'.db, s'.side)
    decreases |events|
  {
    if events != [] {
      EventKeepsSound(s, hashRequired, events[0]);
      EventsKeepSound(Next(s, hashRequired, events[0]), hashRequired, events[1..]);
    }
  }

  /** A swap shows an active document exactly when its current version has a row in
      the side table at that moment. */
  lemma VisibleAfterSwapIff(db: Db, side: ChunkTable, d: DocId)
    requires Inv(db) && SideSound(db, side) && d in LiveDocs(db)
    ensures Visible(Swapped(db, side), d) <==> HasRow(side, db.docs[d].current.value)
  {
    var db' := Swapped(db, side);
    var v := db.docs[d].current.value;
    if k :| InLiveView(db', k) && db'.chunks[k].doc == d { assert k in side && k.version == v; }
    if k :| k in side && k.version == v {
      assert ChunkSound(db', k) && OwnsCurrent(db, d);
      assert InLiveView(db', k) && db'.chunks[k].doc == d;
    }
  }

  /** After any interleaving of store transactions and insertions, failed and
      repeated ones included, a swap leaves every active document visible if and
      only if the coverage check would pass at that moment, and the store's
      constraints hold of the new table. */
  lemma SwapKeepsVisibleIffCovered(db: Db, hashRequired: bool, events: seq<Event>)
    requires Inv(db) && Happens(Both(db, map[]), hashRequired, events)
    ensures var s := Afterwards(Both(db, map[]), hashRequired, events);
      && Inv(Swapped(s.db, s.side))
      && (Covered(s.db, s.side) <==> forall d :: d in LiveDocs(s.db) ==> Visible(Swapped(s.db, s.side), d))
  {
    EventsKeepSound(Both(db, map[]), hashRequired, events);
    var s := Afterwards(Both(db, map[]), hashRequired, events);
    SwapKeepsInv(s.db, s.side);
    CoveredMeans(s.db, s.side);
    forall d | d in LiveDocs(s.db)
      ensures Visible(Swapped(s.db, s.side), d) <==> HasRow(s.side, s.db.docs[d].current.value)
    {
      VisibleAfterSwapIff(s.db, s.side, d);
    }
  }

  /** What a swap shows of one active document. */
  lemma SwapShows(db: Db, side: ChunkTable, d: DocId, v: VersionId)
    requires Inv(db) && SideSound(db, side) && d in db.docs && db.docs[d].status == Active
    requires db.docs[d].current == Some(v)
    ensures v in db.versions && EntryAt(Swapped(db, side), db.docs[d].key) == Some(Entry(db.versions[v].hash, true))
    ensures Shown(Swapped(db, side), db.docs[d].key) == VersionChunks(side, v)
  {
    SwapKeepsInv(db, side);
    EntryIs(Swapped(db, side), d);
  }

  lemma NewVersionHasNoRow(db: Db, side: ChunkTable, put: Db, v: VersionId)
    requires SideSound(db, side) && v !in db.versions
    ensures VersionChunks(Cascaded(side, put), v) == map[]
  {
    forall k | k in side ensures k.version != v { assert ChunkSound(Swapped(db, side), k); }
  }

  /** A changed Put that slips in between the check and the renames: the swap then
      shows of its key exactly the side table's rows of the version it settled on,
      so nothing at all when that version is new, whatever the check said. */
  lemma PutBetweenCheckAndSwap(db: Db, side: ChunkTable, inp: PutInput, now: Time, fd: DocId, fv: VersionId)
    requires Inv(db) && SideSound(db, side) && Enabled(db, PutCommit(inp, now, fd, fv))
    ensures var put := CommitPut(db, inp, now, fd, fv);
      var after := Swapped(put, Cascaded(side, put));
      && EntryAt(after, KeyOf(inp)) == Some(Entry(inp.hash, true))
      && Shown(after, KeyOf(inp)) == VersionChunks(Cascaded(side, put), PutVersion(db, inp, fd, fv))
      && (!Reuses(db, inp, fd) ==> Shown(after, KeyOf(inp)) == map[])
  {
    var put, step := CommitPut(db, inp, now, fd, fv), PutCommit(inp, now, fd, fv);
    var d, v := PutDoc(db, inp, fd), PutVersion(db, inp, fd, fv);
    CommitPutKeepsInv(db, inp, now, fd, fv);
    StepSettles(db, step);
    SettledSide(db, put, side);
    CommitsTables(db, inp, now, fd, fv);
    SwapShows(put, Cascaded(side, put), d, v);
    if !Reuses(db, inp, fd) {
      CommitTarget(db, inp, now, fd, fv);
      NewVersionHasNoRow(db, side, put, v);
    }
  }
}
