/** A full sync: documents ingested one by one over any number of attempts, with
    anything else running in between, and then one sweep of what was not seen. */
module SyncSeries {
  import opened Basics
  import opened Rows
  import opened StoreSteps
  import opened Refinement
  import opened Retention
  import opened Store

  /** Active, with last_seen_at not before `t`. */
  ghost predicate SeenSince(db: Db, key: Key, t: Time) {
    exists d :: d in db.docs && db.docs[d].key == key && db.docs[d].status == Active && db.docs[d].lastSeen >= t
  }

  ghost predicate Named(inp: PutInput) {
    inp.source.Some? && inp.external != "" && inp.hash != []
  }

  /** When the sink's two store calls, with nothing between them, ingest a document. */
  ghost predicate Ingests(db: Db, inp: PutInput, freshDoc: DocId) {
    && Named(inp)
    && (Unchanged(db, KeyOf(inp), inp.hash).Some?
        || (ValidPut(inp) && (Reuses(db, inp, freshDoc) || Insertable(inp.chunks))))
  }

  /** The store half of the sink: the hash short-circuit, and a Put when it does
      not apply. Success means active, seen now, and holding this content. */
  method Ingest(store: TenantStore, inp: PutInput, now: Time, freshDoc: DocId, freshVersion: VersionId)
        returns (ok: bool)
    requires store.Valid() && Fresh(store.View(), freshDoc, freshVersion)
    modifies store
    ensures store.Valid()
    ensures ok == Ingests(old(store.View()), inp, freshDoc)
    ensures ok ==> SeenSince(store.View(), KeyOf(inp), now)
    ensures ok ==> EntryAt(store.View(), KeyOf(inp)) == Some(Entry(inp.hash, true))
    ensures !ok ==> store.View() == old(store.View())
  {
    ghost var db := store.View();
    var same := store.TouchUnchanged(inp.source, inp.external, inp.hash, now);
    if same.None? { return false; }
    if same.value {
      TouchMarks(db, KeyOf(inp), inp.hash, now, now);
      return true;
    }
    var r := store.Put(inp, now, freshDoc, freshVersion);
    if r.Stored? {
      CommitMarks(db, inp, now, freshDoc, freshVersion, now);
      ChangedPutShows(db, inp, now, freshDoc, freshVersion);
    }
    return r.Stored?;
  }

  // ---- What a step marks as seen, and what keeps it so ---------------------

  /** The step ingests `key` at or after `t`: an effective touch, or a commit. */
  ghost predicate Marks(db: Db, s: Step, key: Key, t: Time) {
    || (s.PutCommit? && s.inp.source.Some? && KeyOf(s.inp) == key && s.now >= t)
    || (s.Touch? && s.key == key && Unchanged(db, key, s.hash).Some? && s.now >= t)
  }

  /** Any transaction at all, except that nothing else deletes documents of the
      source being synced and its clock does not run back before `t`. */
  ghost predicate Benign(db: Db, s: Step, source: SourceId, t: Time) {
    match s
    case PutTouch(_, now) => now >= t
    case PutCommit(inp, now, _, _) => now >= t
    case Touch(_, _, now) => now >= t
    case Delete(d, _) => d in db.docs ==> db.docs[d].key.source != source
    case Sweep(other, _, _) => other != source
    case DropSource(other) => other != source
    case _ => true
  }

  ghost predicate BenignRun(db: Db, steps: seq<Step>, source: SourceId, t: Time)
    requires Runs(db, steps)
    decreases |steps|
  {
    steps == [] || (Benign(db, steps[0], source, t) && BenignRun(Apply(db, steps[0]), steps[1..], source, t))
  }

  /** Some step of the run ingests `key`. */
  ghost predicate Emitted(db: Db, steps: seq<Step>, key: Key, t: Time)
    requires Runs(db, steps)
    decreases |steps|
  {
    steps != [] && (Marks(db, steps[0], key, t) || Emitted(Apply(db, steps[0]), steps[1..], key, t))
  }

  lemma TouchMarks(db: Db, key: Key, hash: Hash, now: Time, t: Time)
    requires Inv(db) && Unchanged(db, key, hash).Some? && now >= t
    ensures var db' := TouchIfUnchanged(db, key, hash, now);
      SeenSince(db', key, t) && EntryAt(db', key) == Some(Entry(hash, true))
  {
    var db', d := TouchIfUnchanged(db, key, hash, now), Unchanged(db, key, hash).value;
    TouchIfUnchangedKeepsInv(db, key, hash, now);
    assert d in db'.docs && db'.docs[d].key == key && db'.docs[d].status == Active && db'.docs[d].lastSeen >= t;
    EntryIs(db', d);
  }

  lemma CommitMarks(db: Db, inp: PutInput, now: Time, fd: DocId, fv: VersionId, t: Time)
    requires Inv(db) && Enabled(db, PutCommit(inp, now, fd, fv)) && now >= t
    ensures SeenSince(CommitPut(db, inp, now, fd, fv), KeyOf(inp), t)
  {
    var db', d := CommitPut(db, inp, now, fd, fv), PutDoc(db, inp, fd);
    CommitTarget(db, inp, now, fd, fv);
    assert d in db'.docs && db'.docs[d].key == KeyOf(inp) && db'.docs[d].status == Active && db'.docs[d].lastSeen >= t;
  }

  lemma StepMarks(db: Db, s: Step, key: Key, t: Time)
    requires Inv(db) && Enabled(db, s) && Marks(db, s, key, t)
    ensures SeenSince(Apply(db, s), key, t)
  {
    if s.PutCommit? { CommitMarks(db, s.inp, s.now, s.freshDoc, s.freshVersion, t); }
    else { TouchMarks(db, key, s.hash, s.now, t); }
  }

  ghost predicate StaysSeen(db: Db, db': Db, d: DocId, t: Time) {
    && d in db.docs && d in db'.docs && db'.docs[d].key == db.docs[d].key
    && (db.docs[d].status == Active && db.docs[d].lastSeen >= t ==>
          db'.docs[d].status == Active && db'.docs[d].lastSeen >= t)
  }

  lemma CommitStaysSeen(db: Db, inp: PutInput, now: Time, fd: DocId, fv: VersionId, d: DocId, t: Time)
    requires Inv(db) && Enabled(db, PutCommit(inp, now, fd, fv)) && d in db.docs && now >= t
    ensures StaysSeen(db, CommitPut(db, inp, now, fd, fv), d, t)
  {
    CommitTarget(db, inp, now, fd, fv);
  }

  /** A document seen stays seen through every benign step; retention only
      takes deleted documents. */
  lemma StepStaysSeen(db: Db, s: Step, source: SourceId, d: DocId, t: Time)
    requires Inv(db) && Enabled(db, s) && Benign(db, s, source, t)
    requires d in db.docs && db.docs[d].key.source == source && db.docs[d].status == Active && db.docs[d].lastSeen >= t
    ensures StaysSeen(db, Apply(db, s), d, t)
  {
    match s
    case PutCommit(inp, now, fd, fv) => CommitStaysSeen(db, inp, now, fd, fv, d, t);
    case PutTouch(e, now) => assert StaysSeen(db, TouchRow(db, e, now), d, t);
    case Touch(key, hash, now) => assert StaysSeen(db, TouchIfUnchanged(db, key, hash, now), d, t);
    case Delete(e, now) => assert StaysSeen(db, SoftDelete(db, e, now), d, t);
    case Sweep(other, startedAt, now) => assert StaysSeen(db, SoftDeleteUnseen(db, other, startedAt, now), d, t);
    case GcVersions(_, vs) => assert StaysSeen(db, RemoveVersions(db, vs), d, t);
    case GcDocs(_, ds) => assert StaysSeen(db, RemoveDocs(db, ds), d, t);
    case GcLogs(ls) => assert StaysSeen(db, RemoveLogs(db, ls), d, t);
    case GcPages(ps) => assert StaysSeen(db, RemovePages(db, ps), d, t);
    case DropSource(other) => assert StaysSeen(db, RemoveDocs(db, DocsOfSource(db, other)), d, t);
  }

  lemma {:induction false} RunStaysSeen(db: Db, steps: seq<Step>, source: SourceId, key: Key, t: Time)
    requires Inv(db) && Runs(db, steps) && BenignRun(db, steps, source, t)
    requires key.source == source && SeenSince(db, key, t)
    ensures SeenSince(After(db, steps), key, t)
    decreases |steps|
  {
    if steps != [] {
      var d :| d in db.docs && db.docs[d].key == key && db.docs[d].status == Active && db.docs[d].lastSeen >= t;
      StepStaysSeen(db, steps[0], source, d, t);
      StepKeepsInv(db, steps[0]);
      assert SeenSince(Apply(db, steps[0]), key, t);
      RunStaysSeen(Apply(db, steps[0]), steps[1..], source, key, t);
    }
  }

  /** Whatever a benign run ingests is still active and seen at its end. */
  lemma {:induction false} EmittedIsSeen(db: Db, steps: seq<Step>, source: SourceId, key: Key, t: Time)
    requires Inv(db) && Runs(db, steps) && BenignRun(db, steps, source, t)
    requires key.source == source && Emitted(db, steps, key, t)
    ensures SeenSince(After(db, steps), key, t)
    decreases |steps|
  {
    var db1 := Apply(db, steps[0]);
    StepKeepsInv(db, steps[0]);
    if Marks(db, steps[0], key, t) {
      StepMarks(db, steps[0], key, t);
      RunStaysSeen(db1, steps[1..], source, key, t);
    } else {
      EmittedIsSeen(db1, steps[1..], source, key, t);
    }
  }

  // ---- A touch that misses before a Put that finds nothing changed -------------

  /** At some point of the run, the key's current version has the hash. */
  ghost predicate Held(db: Db, steps: seq<Step>, key: Key, hash: Hash)
    requires Runs(db, steps)
    decreases |steps|
  {
    Unchanged(db, key, hash).Some? || (steps != [] && Held(Apply(db, steps[0]), steps[1..], key, hash))
  }

  /** The sink's touch misses at one point, and its Put's lookup at a later one finds
      the hash current, so that the ingestion ends with a bare last_seen_at. */
  ghost predicate MissedThenHeld(db: Db, steps: seq<Step>, key: Key, hash: Hash)
    requires Runs(db, steps)
    decreases |steps|
  {
    || (Unchanged(db, key, hash).None? && Held(db, steps, key, hash))
    || (steps != [] && MissedThenHeld(Apply(db, steps[0]), steps[1..], key, hash))
  }

  /** Some ingestion of the key with the hash went through, on any of its paths. */
  ghost predicate Ingested(db: Db, steps: seq<Step>, key: Key, hash: Hash, t: Time)
    requires Runs(db, steps)
  {
    Emitted(db, steps, key, t) || MissedThenHeld(db, steps, key, hash)
  }

  lemma UnchangedIsEntry(db: Db, key: Key, hash: Hash)
    requires Inv(db)
    ensures Unchanged(db, key, hash).Some? <==> EntryAt(db, key).Some? && EntryAt(db, key).value.hash == hash
  {
    var d := DocOf(db, key);
    if d.Some? { UnchangedMeans(db, d.value, key, hash); }
  }

  /** Only a commit to the key makes a hash current that was not. */
  lemma OnlyCommitsChange(db: Db, s: Step, key: Key, hash: Hash)
    requires Inv(db) && Enabled(db, s)
    requires Unchanged(db, key, hash).None? && Unchanged(Apply(db, s), key, hash).Some?
    ensures s.PutCommit? && s.inp.source.Some? && KeyOf(s.inp) == key
  {
    StepKeepsInv(db, s);
    UnchangedIsEntry(db, key, hash);
    UnchangedIsEntry(Apply(db, s), key, hash);
    StepRefines(db, s, key);
  }

  lemma {:induction false} HeldWasCommitted(db: Db, steps: seq<Step>, source: SourceId, key: Key, hash: Hash, t: Time)
    requires Inv(db) && Runs(db, steps) && BenignRun(db, steps, source, t)
    requires Unchanged(db, key, hash).None? && Held(db, steps, key, hash)
    ensures Emitted(db, steps, key, t)
    decreases |steps|
  {
    var db1 := Apply(db, steps[0]);
    StepKeepsInv(db, steps[0]);
    if Unchanged(db1, key, hash).Some? {
      OnlyCommitsChange(db, steps[0], key, hash);
      assert Marks(db, steps[0], key, t);
    } else {
      HeldWasCommitted(db1, steps[1..], source, key, hash, t);
    }
  }

  /** Between the miss and the lookup somebody committed that very content, so the
      document counts as seen although this ingestion only touched it. */
  lemma {:induction false} MissedIsEmitted(db: Db, steps: seq<Step>, source: SourceId, key: Key, hash: Hash, t: Time)
    requires Inv(db) && Runs(db, steps) && BenignRun(db, steps, source, t) && MissedThenHeld(db, steps, key, hash)
    ensures Emitted(db, steps, key, t)
    decreases |steps|
  {
    if Unchanged(db, key, hash).None? && Held(db, steps, key, hash) {
      HeldWasCommitted(db, steps, source, key, hash, t);
    } else {
      StepKeepsInv(db, steps[0]);
      MissedIsEmitted(Apply(db, steps[0]), steps[1..], source, key, hash, t);
    }
  }

  /** Whatever a benign run ingests, on any path, is active and seen at its end. */
  lemma IngestedIsSeen(db: Db, steps: seq<Step>, source: SourceId, key: Key, hash: Hash, t: Time)
    requires Inv(db) && Runs(db, steps) && BenignRun(db, steps, source, t)
    requires key.source == source && Ingested(db, steps, key, hash, t)
    ensures SeenSince(After(db, steps), key, t)
  {
    if MissedThenHeld(db, steps, key, hash) { MissedIsEmitted(db, steps, source, key, hash, t); }
    EmittedIsSeen(db, steps, source, key, t);
  }

  // ---- The sweep -----------------------------------------------------------

  /** The sweep flips exactly the active documents of its source not seen since
      `t`, and touches nothing else anywhere. */
  lemma SweepIsExact(db: Db, source: SourceId, t: Time, now: Time)
    ensures var db' := SoftDeleteUnseen(db, source, t, now);
      && db' == db.(docs := db'.docs) && db'.docs.Keys == db.docs.Keys
      && (forall d :: d in db.docs && db.docs[d].key.source != source ==> db'.docs[d] == db.docs[d])
      && (forall d :: d in db.docs && db.docs[d].key.source == source && db'.docs[d].status == Active ==>
            db'.docs[d].lastSeen >= t)
      && (forall d :: d in db.docs ==> (db'.docs[d].status != db.docs[d].status <==>
            db.docs[d].key.source == source && db.docs[d].status == Active && db.docs[d].lastSeen < t))
      && UnseenDocs(db, source, t) == set d | d in db.docs && db'.docs[d].status != db.docs[d].status
  {
  }

  /** The whole series: after the sweep every ingested document of the source is
      active, no active document of it is older than the series, every other
      source is untouched, and the count the sweep reports is the number flipped. */
  lemma SeriesThenSweep(db: Db, steps: seq<Step>, source: SourceId, t: Time, now: Time)
    requires Inv(db) && Runs(db, steps) && BenignRun(db, steps, source, t)
    ensures var db1 := After(db, steps);
      var db2 := SoftDeleteUnseen(db1, source, t, now);
      && (forall key: Key, hash: Hash :: key.source == source && Ingested(db, steps, key, hash, t) ==>
            EntryAt(db2, key).Some? && EntryAt(db2, key).value.live)
      && (forall d :: d in db2.docs && db2.docs[d].key.source == source && db2.docs[d].status == Active ==>
            db2.docs[d].lastSeen >= t)
      && (forall d :: d in db1.docs && db1.docs[d].key.source != source ==> d in db2.docs && db2.docs[d] == db1.docs[d])
      && |UnseenDocs(db1, source, t)| == |set d | d in db1.docs && db2.docs[d].status != db1.docs[d].status|
  {
    var db1 := After(db, steps);
    var db2 := SoftDeleteUnseen(db1, source, t, now);
    RunKeepsInv(db, steps);
    SweepKeepsInv(db1, source, t, now);
    SweepIsExact(db1, source, t, now);
    forall key: Key, hash: Hash | key.source == source && Ingested(db, steps, key, hash, t)
      ensures EntryAt(db2, key).Some? && EntryAt(db2, key).value.live
    {
      IngestedIsSeen(db, steps, source, key, hash, t);
      var d :| d in db1.docs && db1.docs[d].key == key && db1.docs[d].status == Active && db1.docs[d].lastSeen >= t;
      assert d in db2.docs && db2.docs[d] == db1.docs[d];
      EntryIs(db2, d);
    }
  }

  // ---- Put alone does not revive --------------------------------------------

  /** A deleted document is revived by a Put exactly when the Put is a changed
      one: an unchanged Put moves last_seen_at and nothing else. */
  lemma PutRevivesIff(db: Db, inp: PutInput, now: Time, fd: DocId, fv: VersionId)
    requires Inv(db) && ValidPut(inp) && Fresh(db, fd, fv)
    requires EntryAt(db, KeyOf(inp)).Some? && !EntryAt(db, KeyOf(inp)).value.live
    requires Reuses(db, inp, fd) || Insertable(inp.chunks)
    ensures EntryAt(PutState(db, inp, now, fd, fv), KeyOf(inp)).Some?
    ensures EntryAt(PutState(db, inp, now, fd, fv), KeyOf(inp)).value.live <==>
      EntryAt(db, KeyOf(inp)).value.hash != inp.hash
  {
    var d := DocOf(db, KeyOf(inp)).value;
    UnchangedMeans(db, d, KeyOf(inp), inp.hash);
    if Unchanged(db, KeyOf(inp), inp.hash).Some? {
      TouchRowKeepsInv(db, d, now);
      EntryIs(db, d);
      EntryIs(TouchRow(db, d, now), d);
    } else {
      ChangedPutShows(db, inp, now, fd, fv);
    }
  }
}
