/** A retention drain while the store goes on working: between two batches the lock
    is released and any other transactions run. */
module DrainRace {
  import opened Basics
  import opened Rows
  import opened StoreSteps
  import opened Retention

  datatype Kind =
    | OldVersionsOf(cutoff: Time)
    | ExpiredDocsOf(cutoff: Time)
    | OldLogsOf(cutoff: Time)
    | StalePagesOf(now: Time, window: Time)

  /** Other transactions, then one batch. */
  datatype Turn = Turn(others: seq<Step>, batch: Step)

  ghost predicate IsBatchOf(db: Db, kind: Kind, limit: nat, s: Step) {
    match kind
    case OldVersionsOf(cutoff) =>
      s.GcVersions? && s.cutoff == cutoff && IsBatch(OldVersions(db, cutoff), VersionAges(db), limit, s.victims)
    case ExpiredDocsOf(cutoff) =>
      s.GcDocs? && s.cutoff == cutoff && IsBatch(ExpiredDocs(db, cutoff), DeletionAges(db), limit, s.docVictims)
    case OldLogsOf(cutoff) => s.GcLogs? && IsBatch(OldLogs(db, cutoff), db.logs, limit, s.logVictims)
    case StalePagesOf(now, window) =>
      s.GcPages? && IsBatch(StalePages(db, now, window), FetchAges(db), limit, s.pageVictims)
  }

  /** What the statement of a batch counts. */
  ghost function RowsTaken(s: Step): nat {
    match s
    case GcVersions(_, vs) => |vs|
    case GcDocs(_, ds) => |ds|
    case GcLogs(ls) => |ls|
    case GcPages(ps) => |ps|
    case _ => 0
  }

  ghost function ChunksTaken(db: Db, s: Step): nat {
    match s
    case GcVersions(_, vs) => |ChunksOfVersions(db, vs)|
    case GcDocs(_, ds) => |ChunksOfDocs(db, ds)|
    case _ => 0
  }

  ghost function Size(db: Db, kind: Kind): nat {
    match kind
    case OldVersionsOf(_) => |db.versions|
    case ExpiredDocsOf(_) => |db.docs|
    case OldLogsOf(_) => |db.logs|
    case StalePagesOf(_, _) => |db.pages|
  }

  ghost function Eligible(db: Db, kind: Kind): nat {
    match kind
    case OldVersionsOf(cutoff) => |OldVersions(db, cutoff)|
    case ExpiredDocsOf(cutoff) => |ExpiredDocs(db, cutoff)|
    case OldLogsOf(cutoff) => |OldLogs(db, cutoff)|
    case StalePagesOf(now, window) => |StalePages(db, now, window)|
  }

  /** A turn can happen. */
  ghost predicate Happens(db: Db, kind: Kind, limit: nat, turn: Turn) {
    && Runs(db, turn.others)
    && IsBatchOf(After(db, turn.others), kind, limit, turn.batch)
    && Enabled(After(db, turn.others), turn.batch)
  }

  /** The state that its batch meets, and the state that its batch leaves. */
  ghost function Met(db: Db, kind: Kind, limit: nat, turn: Turn): Db
    requires Happens(db, kind, limit, turn)
  {
    After(db, turn.others)
  }

  ghost function Left(db: Db, kind: Kind, limit: nat, turn: Turn): Db
    requires Happens(db, kind, limit, turn)
  {
    Apply(After(db, turn.others), turn.batch)
  }

  /** drain: batches go on while they come back full. */
  ghost predicate Drains(db: Db, kind: Kind, limit: nat, turns: seq<Turn>)
    decreases |turns|
  {
    turns == [] ||
    (Happens(db, kind, limit, turns[0]) &&
     (|turns| > 1 ==> RowsTaken(turns[0].batch) == limit) &&
     Drains(Left(db, kind, limit, turns[0]), kind, limit, turns[1..]))
  }

  ghost function Drained(db: Db, kind: Kind, limit: nat, turns: seq<Turn>): Db
    requires Drains(db, kind, limit, turns)
    decreases |turns|
  {
    if turns == [] then db else Drained(Left(db, kind, limit, turns[0]), kind, limit, turns[1..])
  }

  /** What the drain reports. */
  ghost function TotalRows(turns: seq<Turn>): nat {
    if turns == [] then 0 else RowsTaken(turns[0].batch) + TotalRows(turns[1..])
  }

  ghost function TotalChunks(db: Db, kind: Kind, limit: nat, turns: seq<Turn>): nat
    requires Drains(db, kind, limit, turns)
    decreases |turns|
  {
    if turns == [] then 0
    else
      ChunksTaken(Met(db, kind, limit, turns[0]), turns[0].batch)
      + TotalChunks(Left(db, kind, limit, turns[0]), kind, limit, turns[1..])
  }

  /** What its batches removed: rows before each minus rows after it. */
  ghost function LostRows(db: Db, kind: Kind, limit: nat, turns: seq<Turn>): int
    requires Drains(db, kind, limit, turns)
    decreases |turns|
  {
    if turns == [] then 0
    else
      var left := Left(db, kind, limit, turns[0]);
      Size(Met(db, kind, limit, turns[0]), kind) - Size(left, kind) + LostRows(left, kind, limit, turns[1..])
  }

  ghost function LostChunks(db: Db, kind: Kind, limit: nat, turns: seq<Turn>): int
    requires Drains(db, kind, limit, turns)
    decreases |turns|
  {
    if turns == [] then 0
    else
      var left := Left(db, kind, limit, turns[0]);
      |Met(db, kind, limit, turns[0]).chunks| - |left.chunks| + LostChunks(left, kind, limit, turns[1..])
  }

  // ---- One batch --------------------------------------------------------------------

  lemma BatchCounts(db: Db, kind: Kind, limit: nat, s: Step)
    requires Inv(db) && IsBatchOf(db, kind, limit, s) && Enabled(db, s)
    ensures RowsTaken(s) == Size(db, kind) - Size(Apply(db, s), kind)
    ensures ChunksTaken(db, s) == |db.chunks| - |Apply(db, s).chunks|
  {
    match kind
    case OldVersionsOf(cutoff) => RemoveVersionsCounts(db, s.victims);
    case ExpiredDocsOf(cutoff) => RemoveDocsCounts(db, s.docVictims);
    case OldLogsOf(cutoff) => MapWithout(db.logs, s.logVictims);
    case StalePagesOf(now, window) => MapWithout(db.pages, s.pageVictims);
  }

  lemma ShortBatchEmpties(db: Db, kind: Kind, limit: nat, s: Step)
    requires IsBatchOf(db, kind, limit, s) && Enabled(db, s) && RowsTaken(s) < limit
    ensures Eligible(Apply(db, s), kind) == 0
  {
    match kind
    case OldVersionsOf(cutoff) =>
      ShortBatchIsAll(OldVersions(db, cutoff), VersionAges(db), limit, s.victims);
      SweepVersionsEmpties(db, cutoff);
    case ExpiredDocsOf(cutoff) =>
      ShortBatchIsAll(ExpiredDocs(db, cutoff), DeletionAges(db), limit, s.docVictims);
      SweepDocsEmpties(db, cutoff);
    case OldLogsOf(cutoff) =>
      ShortBatchIsAll(OldLogs(db, cutoff), db.logs, limit, s.logVictims);
      LogsLeft(db, cutoff, s.logVictims);
    case StalePagesOf(now, window) =>
      ShortBatchIsAll(StalePages(db, now, window), FetchAges(db), limit, s.pageVictims);
      PagesLeft(db, now, window, s.pageVictims);
  }

  // ---- Why it ends -------------------------------------------------------------------

  /** Versions old by their date, current or not. */
  ghost function AgedVersions(db: Db, cutoff: Time): set<VersionId> {
    set v | v in db.versions && db.versions[v].createdAt < cutoff
  }

  ghost function AgedDocs(db: Db, cutoff: Time): set<DocId> {
    set d | d in db.docs && db.docs[d].deletedAt.Some? && db.docs[d].deletedAt.value < cutoff
  }

  /** Rows that may yet become eligible. */
  ghost function Aged(db: Db, kind: Kind): nat {
    match kind
    case OldVersionsOf(cutoff) => |AgedVersions(db, cutoff)|
    case ExpiredDocsOf(cutoff) => |AgedDocs(db, cutoff)|
    case OldLogsOf(cutoff) => |OldLogs(db, cutoff)|
    case StalePagesOf(now, window) => |StalePages(db, now, window)|
  }

  /** Other transactions stamp what they write after the cutoff. */
  ghost predicate Past(s: Step, kind: Kind) {
    match kind
    case OldVersionsOf(cutoff) => s.PutCommit? ==> s.now >= cutoff
    case ExpiredDocsOf(cutoff) => s.Delete? || s.Sweep? ==> s.now >= cutoff
    case _ => true
  }

  ghost predicate AllPast(turns: seq<Turn>, kind: Kind) {
    forall turn, s :: turn in turns && s in turn.others ==> Past(s, kind)
  }

  lemma VersionsAge(db: Db, s: Step, cutoff: Time)
    requires Enabled(db, s) && (s.PutCommit? ==> s.now >= cutoff)
    ensures AgedVersions(Apply(db, s), cutoff) <= AgedVersions(db, cutoff)
  {
    match s
    case PutCommit(inp, now, fd, fv) =>
      assert CommitPut(db, inp, now, fd, fv).versions.Keys <= db.versions.Keys + {PutVersion(db, inp, fd, fv)};
    case PutTouch(d, now) => assert TouchRow(db, d, now).versions == db.versions;
    case Touch(key, hash, now) => assert TouchIfUnchanged(db, key, hash, now).versions == db.versions;
    case Delete(d, now) => assert SoftDelete(db, d, now).versions == db.versions;
    case Sweep(_, _, _) =>
    case GcVersions(_, _) =>
    case GcDocs(_, _) =>
    case GcLogs(_) =>
    case GcPages(_) =>
    case DropSource(_) =>
  }

  lemma DocsAge(db: Db, s: Step, cutoff: Time)
    requires Inv(db) && Enabled(db, s) && (s.Delete? || s.Sweep? ==> s.now >= cutoff)
    ensures AgedDocs(Apply(db, s), cutoff) <= AgedDocs(db, cutoff)
  {
    match s
    case PutCommit(inp, now, fd, fv) => CommitTarget(db, inp, now, fd, fv);
    case PutTouch(d, now) => assert AgedDocs(TouchRow(db, d, now), cutoff) <= AgedDocs(db, cutoff);
    case Touch(key, hash, now) => assert AgedDocs(TouchIfUnchanged(db, key, hash, now), cutoff) <= AgedDocs(db, cutoff);
    case Delete(d, now) => assert AgedDocs(SoftDelete(db, d, now), cutoff) <= AgedDocs(db, cutoff);
    case Sweep(_, _, _) =>
    case GcVersions(_, _) =>
    case GcDocs(_, _) =>
    case GcLogs(_) =>
    case GcPages(_) =>
    case DropSource(_) =>
  }

  /** No transaction of the store writes the logs or the pages, except to delete. */
  lemma LogsAndPagesShrink(db: Db, s: Step)
    requires Enabled(db, s)
    ensures forall l :: l in Apply(db, s).logs ==> l in db.logs && Apply(db, s).logs[l] == db.logs[l]
    ensures forall p :: p in Apply(db, s).pages ==> p in db.pages && Apply(db, s).pages[p] == db.pages[p]
  {
    match s
    case PutCommit(inp, now, fd, fv) =>
      var db' := CommitPut(db, inp, now, fd, fv);
      assert db'.logs == db.logs && db'.pages == db.pages;
    case PutTouch(d, now) => assert TouchRow(db, d, now).logs == db.logs && TouchRow(db, d, now).pages == db.pages;
    case Touch(key, hash, now) =>
      var db' := TouchIfUnchanged(db, key, hash, now);
      assert db'.logs == db.logs && db'.pages == db.pages;
    case Delete(d, now) => assert SoftDelete(db, d, now).logs == db.logs && SoftDelete(db, d, now).pages == db.pages;
    case Sweep(_, _, _) =>
    case GcVersions(_, _) =>
    case GcDocs(_, _) =>
    case GcLogs(_) =>
    case GcPages(_) =>
    case DropSource(_) =>
  }

  lemma StepAges(db: Db, s: Step, kind: Kind)
    requires Inv(db) && Enabled(db, s) && Past(s, kind)
    ensures Aged(Apply(db, s), kind) <= Aged(db, kind)
  {
    match kind
    case OldVersionsOf(cutoff) =>
      VersionsAge(db, s, cutoff);
      SubsetSize(AgedVersions(Apply(db, s), cutoff), AgedVersions(db, cutoff));
    case ExpiredDocsOf(cutoff) =>
      DocsAge(db, s, cutoff);
      SubsetSize(AgedDocs(Apply(db, s), cutoff), AgedDocs(db, cutoff));
    case OldLogsOf(cutoff) =>
      LogsAndPagesShrink(db, s);
      SubsetSize(OldLogs(Apply(db, s), cutoff), OldLogs(db, cutoff));
    case StalePagesOf(now, window) =>
      LogsAndPagesShrink(db, s);
      SubsetSize(StalePages(Apply(db, s), now, window), StalePages(db, now, window));
  }

  lemma {:induction false} RunAges(db: Db, steps: seq<Step>, kind: Kind)
    requires Inv(db) && Runs(db, steps) && forall s :: s in steps ==> Past(s, kind)
    ensures Inv(After(db, steps)) && Aged(After(db, steps), kind) <= Aged(db, kind)
    decreases |steps|
  {
    if steps != [] {
      StepKeepsInv(db, steps[0]);
      StepAges(db, steps[0], kind);
      RunAges(Apply(db, steps[0]), steps[1..], kind);
    }
  }

  lemma RemovedFromAged<K>(aged: set<K>, gone: set<K>, left: set<K>)
    requires gone <= aged && left <= aged - gone
    ensures |left| + |gone| <= |aged|
  {
    SubsetSize(left, aged - gone);
    assert |aged - gone| == |aged| - |gone|;
  }

  /** A batch takes its rows out of those that could ever be taken. */
  lemma BatchAges(db: Db, kind: Kind, limit: nat, s: Step)
    requires IsBatchOf(db, kind, limit, s) && Enabled(db, s)
    ensures Aged(Apply(db, s), kind) + RowsTaken(s) <= Aged(db, kind)
  {
    match kind
    case OldVersionsOf(cutoff) =>
      RemovedFromAged(AgedVersions(db, cutoff), s.victims, AgedVersions(Apply(db, s), cutoff));
    case ExpiredDocsOf(cutoff) =>
      RemovedFromAged(AgedDocs(db, cutoff), s.docVictims, AgedDocs(Apply(db, s), cutoff));
    case OldLogsOf(cutoff) =>
      LogsLeft(db, cutoff, s.logVictims);
      RemovedFromAged(OldLogs(db, cutoff), s.logVictims, OldLogs(Apply(db, s), cutoff));
    case StalePagesOf(now, window) =>
      PagesLeft(db, now, window, s.pageVictims);
      RemovedFromAged(StalePages(db, now, window), s.pageVictims, StalePages(Apply(db, s), now, window));
  }

  // ---- The whole drain ---------------------------------------------------------------

  /** One turn: the constraints hold on either side of the batch, readers notice
      nothing of it, and what it counts is what it removes. */
  lemma TurnHolds(db: Db, kind: Kind, limit: nat, turn: Turn)
    requires Inv(db) && Happens(db, kind, limit, turn) && forall s :: s in turn.others ==> Past(s, kind)
    ensures var met, left := Met(db, kind, limit, turn), Left(db, kind, limit, turn);
      && Inv(met) && Inv(left) && LiveView(left) == LiveView(met)
      && Aged(left, kind) + RowsTaken(turn.batch) <= Aged(db, kind)
      && RowsTaken(turn.batch) == Size(met, kind) - Size(left, kind)
      && ChunksTaken(met, turn.batch) == |met.chunks| - |left.chunks|
  {
    var met := After(db, turn.others);
    RunAges(db, turn.others, kind);
    StepKeepsInv(met, turn.batch);
    BatchAges(met, kind, limit, turn.batch);
    BatchKeepsView(met, turn.batch);
    BatchCounts(met, kind, limit, turn.batch);
  }

  lemma TurnCountsChunks(db: Db, kind: Kind, limit: nat, turn: Turn)
    requires Inv(db) && Happens(db, kind, limit, turn) && forall s :: s in turn.others ==> Past(s, kind)
    ensures Inv(Left(db, kind, limit, turn))
    ensures ChunksTaken(Met(db, kind, limit, turn), turn.batch)
         == |Met(db, kind, limit, turn).chunks| - |Left(db, kind, limit, turn).chunks|
  {
    TurnHolds(db, kind, limit, turn);
  }

  lemma RestPast(turns: seq<Turn>, kind: Kind)
    requires AllPast(turns, kind) && turns != []
    ensures AllPast(turns[1..], kind) && forall s :: s in turns[0].others ==> Past(s, kind)
  {
    assert turns[0] in turns;
  }

  lemma {:induction false} DrainKeepsInv(db: Db, kind: Kind, limit: nat, turns: seq<Turn>)
    requires Inv(db) && Drains(db, kind, limit, turns) && AllPast(turns, kind)
    ensures Inv(Drained(db, kind, limit, turns))
    decreases |turns|
  {
    if turns != [] {
      RestPast(turns, kind);
      TurnHolds(db, kind, limit, turns[0]);
      DrainKeepsInv(Left(db, kind, limit, turns[0]), kind, limit, turns[1..]);
    }
  }

  lemma {:induction false} RowsAreLost(db: Db, kind: Kind, limit: nat, turns: seq<Turn>)
    requires Inv(db) && Drains(db, kind, limit, turns) && AllPast(turns, kind)
    ensures TotalRows(turns) == LostRows(db, kind, limit, turns)
    decreases |turns|
  {
    if turns != [] {
      RestPast(turns, kind);
      TurnHolds(db, kind, limit, turns[0]);
      RowsAreLost(Left(db, kind, limit, turns[0]), kind, limit, turns[1..]);
    }
  }

  lemma {:induction false} ChunksAreLost(db: Db, kind: Kind, limit: nat, turns: seq<Turn>)
    requires Inv(db) && Drains(db, kind, limit, turns) && AllPast(turns, kind)
    ensures TotalChunks(db, kind, limit, turns) == LostChunks(db, kind, limit, turns)
    decreases |turns|
  {
    if turns != [] {
      RestPast(turns, kind);
      TurnCountsChunks(db, kind, limit, turns[0]);
      ChunksAreLost(Left(db, kind, limit, turns[0]), kind, limit, turns[1..]);
    }
  }

  /** With any transactions of the store between its batches, a drain keeps the
      constraints, and what it reports, cascaded chunks included, is exactly what its
      batches removed. */
  lemma DrainCounts(db: Db, kind: Kind, limit: nat, turns: seq<Turn>)
    requires Inv(db) && Drains(db, kind, limit, turns) && AllPast(turns, kind)
    ensures Inv(Drained(db, kind, limit, turns))
    ensures TotalRows(turns) == LostRows(db, kind, limit, turns)
    ensures TotalChunks(db, kind, limit, turns) == LostChunks(db, kind, limit, turns)
  {
    DrainKeepsInv(db, kind, limit, turns);
    RowsAreLost(db, kind, limit, turns);
    ChunksAreLost(db, kind, limit, turns);
  }

  /** The rows its batches take were all there, old by their date, when it began. */
  lemma {:induction false} TakenWereAged(db: Db, kind: Kind, limit: nat, turns: seq<Turn>)
    requires Inv(db) && Drains(db, kind, limit, turns) && AllPast(turns, kind)
    ensures TotalRows(turns) <= Aged(db, kind)
    decreases |turns|
  {
    if turns != [] {
      RestPast(turns, kind);
      TurnHolds(db, kind, limit, turns[0]);
      TakenWereAged(Left(db, kind, limit, turns[0]), kind, limit, turns[1..]);
    }
  }

  lemma {:induction false} FullBatchesFill(db: Db, kind: Kind, limit: nat, turns: seq<Turn>)
    requires Drains(db, kind, limit, turns) && turns != []
    ensures (|turns| - 1) * limit <= TotalRows(turns)
    decreases |turns|
  {
    if |turns| > 1 {
      FullBatchesFill(Left(db, kind, limit, turns[0]), kind, limit, turns[1..]);
      OneMore(|turns| - 2, limit);
    }
  }

  lemma OneMore(n: nat, limit: nat)
    ensures (n + 1) * limit == n * limit + limit
  {
  }

  /** So it ends, whatever goes on meanwhile: it has at most one batch more than the
      rows that were old when it began fill. */
  lemma DrainEnds(db: Db, kind: Kind, limit: nat, turns: seq<Turn>)
    requires Inv(db) && Drains(db, kind, limit, turns) && AllPast(turns, kind) && turns != []
    ensures (|turns| - 1) * limit <= Aged(db, kind)
  {
    TakenWereAged(db, kind, limit, turns);
    FullBatchesFill(db, kind, limit, turns);
  }

  /** When it stops on a batch that came back short, no row of the class is eligible
      at that moment. */
  lemma {:induction false} DrainLeavesNone(db: Db, kind: Kind, limit: nat, turns: seq<Turn>)
    requires Drains(db, kind, limit, turns) && turns != [] && RowsTaken(turns[|turns| - 1].batch) < limit
    ensures Eligible(Drained(db, kind, limit, turns), kind) == 0
    decreases |turns|
  {
    if |turns| == 1 {
      assert turns[1..] == [];
      ShortBatchEmpties(After(db, turns[0].others), kind, limit, turns[0].batch);
    } else {
      DrainLeavesNone(Left(db, kind, limit, turns[0]), kind, limit, turns[1..]);
    }
  }
}
