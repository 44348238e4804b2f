# Models of the RAG platform's stateful core

These files model the parts of the platform that keep state or promise an
equivalence: the tenant document store and the hybrid query over it, the tenant
resolver with its two caches and the migration runner behind it, the rerank
pipeline, keyset pagination, key rotation, and the circuit breaker with its retry
loop. Each SQL transaction is one atomic step on tables held as maps; whatever
releases a lock or runs between transactions is a separate step, and the results
are about every interleaving of those steps.

| file | what it holds |
|---|---|
| basics.dfy | declarations that every module uses |
| rows.dfy, store_steps.dfy, store_writes.dfy | the tenant database, its constraints, every store transaction as a step, that each keeps the constraints, and what each writes and leaves alone |
| gc.dfy, drain_race.dfy | retention: batches, the complete sweep, its counts; a drain while the store goes on working |
| tenant_store.dfy | the store as a class, each method proved against its step |
| refinement.dfy | the plain map from key to (hash, live) that the store refines |
| sync_series.dfy | ingestion of a full sync and its closing sweep |
| like.dfy, hybrid.dfy, search.dfy | the retrieval query against the live_chunks view, fusion, and the search around it |
| reindex.dfy, reindexer.dfy, reindex_race.dfy | the side table, coverage, the swap and what it forgets; the operation that drives it; the store at work meanwhile |
| pools.dfy, pool_use.dfy, pool_cache.dfy | the pool cache as a machine, what its stamps mean, and its list-and-map class |
| registry.dfy, resolver.dfy, migration.dfy | the registry cache, Open, and the migration runner |
| close_reload.dfy | both caches of the resolver as one machine, and what Close achieves |
| json_scan.dfy, json_grammar.dfy, json_extract.dfy | the array scanner, the JSON grammar, and the one on the other |
| rerank.dfy | the reranking chain |
| paging.dfy | pages, cursors and scans |
| keyring.dfy | envelope, keyring and rotation sweep |
| breaker.dfy, retry.dfy | breaker, back-off and retry loop |

`dafny verify dfyconfig.toml` checks the whole project.

## Where the code and its documentation disagree

The model follows the code. Each of these is stated by the members named with it.

- Reindex and the schema: `chunks.content_hash` is not null without a default
  (internal/migrate/tenant/00001_initial_schema.sql:82), `chunks_new` is created
  `like chunks`, and `InsertChunksNew` omits the column, so on that schema a reindex
  writes nothing and swaps if and only if nothing is live
  (`RequiredHashWritesNothing`, `Reindexer.Reindex`). The flag
  `hashRequired` separates this from the rest, which is proved for both schemas.
- Coverage asks for at least one row per live version, so an active document
  without chunks blocks the swap (`RebuiltIsCoveredIff`).
- The swap keeps only live versions' chunks. A later rollback Put, or a touch that
  revives a document deleted before the swap, finds its version row but no chunks
  (`RollbackAfterSwap`, `ReviveAfterSwap`), although versions are meant to be
  immutable together with their chunks.
- An unchanged Put does not revive a deleted document; only the touch does
  (`PutRevivesIff`). A changed Put reactivates but leaves the old deleted_at
  (`CommitLeavesStamp`), where internal/documents/sync.go:13-15 calls the touch, which
  clears it, the same restore that a changed Put performs.
- The retention metrics leave out versions removed with expired documents
  (`ReportedIsRemoved`).
- The comment on finalK says that the query applies its default of eight when top_k
  and final_k are both zero. Search then fetches eight rows and cuts them to none, and
  a negative final_k makes it slice out of bounds (`AnswersIff`,
  `UnsetSizesFindNothing`, `Search`). The API does not reach this: the settings
  service overlays stored documents on defaults with final_k 8
  (internal/cp/tenants/settings.go:207-208,
  internal/cp/tenants/settings_defaults.json:8) and the schema requires 1 to 100
  (internal/cp/tenants/settings_schema.json:76). The overlay file of `ragctl eval run`
  is merged without validation (internal/cli/eval_run.go:96) and can.
- Pools are not built at most once per tenant under concurrent misses
  (`TwoMissesTwoDials`), and an Invalidate is undone by a load that had already read
  (`InvalidateTakesEffectIff`). Close is meant to make the next Open reload fresh
  connection details; a load, an Open or a dial already under way, or an Open between
  its two drops, brings the old ones back (`CloseReloadsIff`).
- A tenant held by another runner is reported as migrated, at version zero
  (`Fleet.RunAll`). Open compares versions with `!=` and so also rejects a tenant
  ahead of the binary (`Decide`).
- A chunk omitted by the reranker gets score zero, above any negative ranked score
  placed before it (`HeadFallsIff`).

## Model

| member | source | states |
|---|---|---|
| `StoreSteps.StepKeepsInv` | internal/documents/put.go:115-196 | Every transaction of the store with any arguments (put touch, put commit, touch-if-unchanged, soft delete, sweep, the four retention batches, source delete) keeps all five constraints: unique keys, unique (document, hash), each document pointing at a version of its own, each chunk under a version of its own document and source, deleted implies stamped. |
| `StoreSteps.RunKeepsInv` | internal/documents/gc.go:162-215 | The same over every run of interleaved transactions. |
| `StoreSteps.ReachableStates` | internal/documents/put.go:115-196 | The constraints read back in plain terms for every state reachable from an empty tenant database. |
| `StoreSteps.CommitPutKeepsInv` | internal/documents/put.go:123-193 | The commit transaction, on rollback reuse and on a new version alike, keeps the constraints; the hash lookup is what keeps (document, hash) unique. |
| `StoreSteps.RemoveVersionsKeepsInv` | internal/documents/gc.go:162-190 | Deleting any set of old unreferenced versions with their chunk cascade never takes a version a document points at. |
| `StoreSteps.RemoveDocsKeepsInv` | internal/documents/gc.go:192-215 | Deleting any documents with both cascades leaves no dangling version, chunk or current_version. |
| `Store.ValidatePut` | internal/documents/put.go:202-221 | No error exactly when the input is valid; otherwise the error of the first check that fails, with the first offending chunk. |
| `Store.TenantStore.Put` | internal/documents/put.go:82-197 | The whole new state and answer of a Put on every path: refused, unchanged (last_seen_at only), rollback reuse, new version, constraint violation rolled back whole. |
| `Store.TenantStore.LookupUnchanged` | internal/documents/put.go:87-108 | Finds the document exactly when its current version has the given hash. |
| `Store.TenantStore.InsertChunks` | internal/documents/put.go:160-182 | The chunk loop succeeds exactly when every chunk has a hash and no position repeats, and then has added exactly the given rows. |
| `Store.TenantStore.Upsert` | internal/documents/put.go:123-138 | One row per (source, external id): the existing identity is rewritten and reactivated, deleted_at left alone, or a new one inserted. |
| `Store.TenantStore.SettleVersion` | internal/documents/put.go:140-182 | Reuses the one version with this hash untouched, else inserts version and chunks, else reports the violation. |
| `Store.TenantStore.Commit` | internal/documents/put.go:115-196 | The commit transaction against its atomic step, and the unchanged state when it rolls back. |
| `StoreWrites.CommitWritesDoc` | internal/documents/put.go:123-193 | After a changed Put the document carries the input's title, uri, mime type and metadata, is active on the version settled on, seen now, first seen when it first was, its deleted_at untouched. |
| `StoreWrites.CommitWritesVersion` | internal/documents/put.go:140-158 | A new version carries the input's hash and content, dated now; a reused one leaves versions and chunks as they were. |
| `StoreWrites.CommitWritesChunks` | internal/documents/put.go:160-182 | A new version gets one row for each input chunk, as given, with its hash, dated now, and no other. |
| `StoreWrites.CommitSparesRows` | internal/documents/put.go:115-196 | Every other document and every version that was there stay as they are. |
| `StoreWrites.CommitSparesChunks` | internal/documents/put.go:115-196 | So do every chunk that was there, the logs and the pages. |
| `StoreWrites.PutTouchWrites` | internal/documents/put.go:106-113 | An unchanged Put moves last_seen_at to now and nothing else. |
| `StoreWrites.TouchWrites` | internal/documents/sync.go:34-47 | A touch that hits sets last_seen_at, status and deleted_at of that document; one that misses writes nothing. |
| `StoreWrites.DeleteWrites` | internal/documents/store.go:213-231 | A delete stamps an active document with now, keeps the stamp of a deleted one, and leaves last_seen_at and the rest. |
| `StoreWrites.SweepWrites` | internal/documents/sync.go:60-78 | The closing sweep stamps with now each document it turns off and leaves every other row. |
| `StoreWrites.DeleteSourceTakes` | internal/documents/delete_source.go:27-65 | A document, version, chunk or page goes if and only if it is of the source; what stays is unchanged. |
| `Store.TenantStore.TouchUnchanged` | internal/documents/sync.go:24-47 | TouchIfUnchanged on every argument: refusals change nothing; otherwise touch, revive and clear deleted_at exactly when the current hash matches. |
| `Store.TenantStore.SweepUnseen` | internal/documents/sync.go:60-78 | SoftDeleteUnseen: flips exactly the unseen documents of the source and returns how many; invalid arguments change nothing. |
| `Store.TenantStore.DeleteDoc` | internal/documents/store.go:213-231 | SoftDelete: reports existence, stamps once, leaves an already deleted document as it is. |
| `Store.TenantStore.RemoveSource` | internal/documents/delete_source.go:27-65 | After the cascades the three counts equal rows before minus rows after; the chunk count by source column is exact only because a chunk carries its document's source. |
| `Retention.TakeOldest` | internal/documents/gc.go:169-190 | A batch is the oldest rows of its class, as many as the limit and the class allow. |
| `Retention.ShortBatchIsAll` | internal/documents/gc.go:148-160 | A batch that comes back short has exhausted its class, which is what lets the drain stop. |
| `Store.TenantStore.DrainVersions` | internal/documents/gc.go:105-113 | The drain ends, removes every old version and nothing else, and sums versions and cascaded chunks exactly over its batches. |
| `Store.TenantStore.DrainDocs` | internal/documents/gc.go:115-123 | The same for expired documents with both cascades. |
| `Store.TenantStore.DrainLogs` | internal/documents/gc.go:125-132 | The same for query logs. |
| `Store.TenantStore.DrainPages` | internal/documents/gc.go:134-143 | The same for stale crawl pages. |
| `Store.TenantStore.CollectGarbage` | internal/documents/gc.go:101-146 | For every policy and batch size the call terminates in the state of one complete sweep, reports that sweep's metrics, and has removed exactly the rows that the policy's own windows name, unset ones being 30, 30 and 90 days. |
| `Retention.CollectedExactly` | internal/documents/gc.go:101-146 | In terms of the policy and the clock alone: a document goes if and only if it was deleted longer ago than its window, a version if and only if it is old and nobody's current or its document goes, a log and a page by their own windows, a chunk with its version. |
| `Retention.GraceIsExact` | internal/documents/gc.go:115-123 | A document deleted at t is still there exactly until the sweep whose clock is past t by more than the window. |
| `DrainRace.DrainCounts` | internal/documents/gc.go:148-160 | With any transactions of the store between its batches, the drain of any class keeps the constraints, and the rows and cascaded chunks it reports are exactly what its batches removed. |
| `DrainRace.DrainEnds` | internal/documents/gc.go:94-98 | And it ends: at most one batch more than the rows fill that were old by their date when it began, as long as others stamp what they write after the cutoff. |
| `DrainRace.DrainLeavesNone` | internal/documents/gc.go:148-160 | When it stops on a short batch, no row of the class is eligible at that moment. |
| `Retention.BatchKeepsView` | internal/documents/gc.go:162-255 | Any single batch of any class, in any state that keeps the constraints, leaves the live view as it was. |
| `Retention.SweptKeeps` | internal/documents/gc.go:101-146 | A complete sweep keeps the constraints and the live view. |
| `Retention.NoVictimLeft` | internal/documents/gc.go:101-160 | After a sweep no row eligible in any swept class is left, although documents are deleted after versions were drained. |
| `Retention.SweepDocsFreesNoVersion` | internal/documents/gc.go:192-215 | Deleting expired documents never makes a further version eligible. |
| `Retention.SweepIdempotent` | internal/documents/gc.go:88-92 | A second sweep with the same clock changes nothing and reports zeros. |
| `Retention.ReportedIsRemoved` | internal/documents/gc.go:71-87 | Documents, logs, pages and chunks reported equal rows before minus rows after; versions taken by the document cascade are the exact difference in the version count. |
| `Retention.RemoveDocsCounts` | internal/documents/gc.go:192-215 | Counting chunks by document counts exactly what the version cascade and the document cascade together remove. |
| `Refinement.ShownIsLiveView` | internal/migrate/tenant/00001_initial_schema.sql:105-110 | What is shown of a key is exactly the live_chunks rows of the document with that key. |
| `Refinement.ShownIsStored` | internal/documents/put.go:184-193 | A live key shows exactly the chunks stored under its current hash, a dead or absent one nothing. |
| `Refinement.ChangedPutShows` | internal/documents/put.go:106-196 | A changed Put leaves its key live with the new hash, showing the surviving version's chunks on a rollback and the supplied ones otherwise, and changes nothing any other key shows. |
| `Refinement.StoredIsImmutable` | internal/documents/put.go:160-182 | No transaction ever alters what is stored under a key and hash: it was there before, or this Put supplied it where nothing was. |
| `Refinement.StepRefines` | internal/documents/sync.go:24-78 | Each transaction is a step of a plain map from key to (hash, live): commit sets, touch revives on equal hash, delete and sweep only turn off, retention only drops keys that are off, source delete drops the source. |
| `Refinement.StepTurnsOffExactly` | internal/documents/sync.go:60-78 | Which keys a delete, a sweep and retention take: exactly the named document's, the live ones of the source last seen before the start, the victims'. |
| `Refinement.CommitLeavesStamp` | internal/documents/put.go:123-138 | After a changed Put the active document carries the deleted_at value it had, or none when the Put created it. |
| `Refinement.Provenance` | internal/documents/put.go:140-182 | Over any history, chunks stored under a key and hash were there at the start or were supplied by a Put of that key and hash. |
| `Refinement.HistoryShows` | internal/documents/put.go:75-81 | When chunking is a function of content, every history of rollbacks, re-puts, deletes, sweeps and collection leaves each live key showing exactly the chunks of its current hash. |
| `SyncSeries.Ingest` | internal/ingest/sink/sink.go:230-358 | Touch, else Put: succeeds exactly when the input is unchanged or storable, and then the document is active, seen now, with this content; otherwise nothing changed. |
| `SyncSeries.EmittedIsSeen` | internal/worker/sync.go:181-184 | Whatever an effective touch or a commit ingested at or after the series start, in any attempt and with any benign transactions between, is still active and seen at the end. |
| `SyncSeries.IngestedIsSeen` | internal/ingest/sink/sink.go:246-259 | The same on every path of an ingestion, including a touch that misses before a Put that finds the hash current: between the two somebody committed that content. |
| `SyncSeries.SweepIsExact` | internal/documents/sync.go:60-78 | The sweep flips exactly the active documents of its source older than the start and touches no other row or source. |
| `SyncSeries.SeriesThenSweep` | internal/documents/sync.go:49-78 | After the sweep all ingested documents are active, no active document of the source is older than the series, other sources are untouched, and the count is the number flipped. |
| `SyncSeries.PutRevivesIff` | internal/documents/put.go:106-113 | A deleted document is revived by a Put exactly when the hash differs from its current one: the unchanged path touches last_seen_at only. |
| `Like.LikePrefixPattern` | internal/retrieve/retrieve.go:316-331 | The escaped pattern matches a text under LIKE with escape exactly when the prefix is a literal prefix of it. |
| `Like.PrefixPattern` | internal/retrieve/retrieve.go:316-331 | The same equivalence as a lemma, for all prefixes and texts, wildcards and backslashes included. |
| `Hybrid.SemiJoinIsView` | internal/retrieve/retrieve.go:387-405 | In every state that keeps the constraints, the version_id semi-join with the filters folded in selects exactly the live_chunks rows whose own document passes, uri meaning literal prefix. |
| `Hybrid.SemiJoinIsViewOnEveryRun` | internal/retrieve/retrieve.go:387-405 | Hence on every state any run of the store reaches. |
| `Hybrid.ForeignChunkIsScanned` | internal/retrieve/retrieve.go:387-392 | Without the chunk-ownership constraint the two forms differ: a concrete database that keeps the other four. |
| `Hybrid.RRFScore` | internal/retrieve/retrieve.go:295-305 | The loop sums 1/(60 + rank) over the ranks. |
| `Hybrid.FusedIsRrf` | internal/retrieve/retrieve.go:438-442 | The grouped union of the two numbered lists scores each chunk as the RRF of its ranks. |
| `Hybrid.BothFirstIff` | internal/retrieve/retrieve.go:407-451 | For any two limits, every both-list chunk strictly outscores every single-list chunk in all rankings within them if and only if the two last ranks together outweigh one first rank. |
| `Hybrid.SixtyOneIsTight` | internal/retrieve/retrieve.go:407-451 | With one limit for both lists that holds exactly up to 61. |
| `Hybrid.RetrieveIsLiveAndBothFirst` | internal/retrieve/retrieve.go:407-451 | At any two limits whose last ranks outweigh one first rank, the answer holds only live filtered rows, both-list chunks precede single-list ones, and none is cut while a single-list one is returned. |
| `Search.Search` | internal/retrieve/service.go:192-231 | Over-fetch, rerank and truncate: panics exactly when no top_k is given and final_k is negative, else the reordered fetch cut to the final size. |
| `Search.FinalK` | internal/retrieve/service.go:334-350 | A request within the ceiling is taken as it is, a setting within it when there is none, the ceiling beyond it; the unset ceiling is 100; positive only if one of the two is. |
| `Search.RerankerSees` | internal/retrieve/service.go:196-208 | The reranker is handed the whole of the best top_n matches, 20 when unset, also where fewer are asked for, and all that are asked for are fetched. |
| `Search.FallbackIsPlain` | internal/retrieve/service.go:260-283 | When reranking is off or fails, the answer is what the query alone gives at the final size, over-fetching or not. |
| `Search.AnswerIsFromFetched` | internal/retrieve/service.go:285-312 | With a usable ranking the answer is a prefix of a permutation of the fetched results, as many as the plain query returns, its i-th the passage that the reply is i-th to name. |
| `Search.AnswersIff` | internal/retrieve/service.go:334-350 | Given any match, a search returns something exactly when top_k or final_k is positive. |
| `Search.UnsetSizesFindNothing` | internal/retrieve/service.go:223-225 | An instance: one chunk matches, neither size is set, and nothing comes back. |
| `Reindex.SideHoldsLast` | internal/documents/reindex.go:192-235 | After any sequence of InsertChunksNew calls, failed and repeated ones included, the side table holds per version exactly the rows of the last call that committed. |
| `Reindex.InsertStores` | internal/documents/reindex.go:208-233 | An accepted insertion stores of its version one row for each given, with that row's text, vector, model, document and source, and leaves the other versions' rows. |
| `Reindex.RequiredHashWritesNothing` | internal/documents/reindex.go:222-230 | content_hash is not null without default on chunks and hence on the side table, and the insert omits it: under that schema no sequence of calls writes a row. |
| `Reindex.CoveredMeans` | internal/documents/reindex.go:60-62 | The two counts agree exactly when every live version has a row in the target table. |
| `Reindex.CoveredCallsKeepVisible` | internal/documents/reindex.go:192-292 | After any sequence of InsertChunksNew calls whose rows carry their version's own document and source, repeats and failures included, coverage at the swap leaves every active document visible and the constraints hold of the new table. |
| `ReindexRace.SwapKeepsVisibleIffCovered` | internal/documents/reindex.go:237-292 | The same with the store's transactions and their cascades interleaved in any order with the insertions, and both ways: a swap leaves every active document visible if and only if the check would pass at that moment. |
| `ReindexRace.VisibleAfterSwapIff` | internal/documents/reindex.go:262-292 | Document by document: visible after the swap exactly when its current version has a row in the side table then. |
| `ReindexRace.PutBetweenCheckAndSwap` | internal/ingest/reindex/reindex.go:206-220 | A changed Put between the check and the renames: the swap shows of its key exactly the side table's rows of the version settled on, nothing when that is new. |
| `ReindexRace.TransactionSparesSide` | internal/documents/reindex.go:114-115 | A store transaction takes from the side table exactly the rows of versions it removes. |
| `Reindex.SwapKeepsLiveText` | internal/documents/reindex.go:161-190 | On the text-reuse path the live (version, position, text) rows are the same before and after the swap. |
| `Reindex.RebuiltIsCoveredIff` | internal/documents/reindex.go:241-260 | A complete rebuild passes the coverage check if and only if no live version is without chunks: one empty document blocks the swap. |
| `ReindexRun.Reindexer.Reindex` | internal/ingest/reindex/reindex.go:118-220 | Prepare, Run and Swap: the tables are swapped if and only if the arguments are good and each live version has chunks that can all be re-embedded and written; where content_hash is required, if and only if nothing is live. After a swap every chunk carries the new model and its vector of that chunk's text. |
| `Reindex.RollbackAfterSwap` | internal/documents/put.go:140-160 | After a swap, a rollback Put to a stored version shows the same heading path, content and token count at the same positions as it would have before if and only if that version was live at the swap or had no chunks; otherwise the active document shows nothing. |
| `Reindex.ReviveAfterSwap` | internal/documents/sync.go:24-47 | After a swap, touching back a document deleted before it makes it active with nothing to show. |
| `ReindexRun.Reindexer.Prepare` | internal/ingest/reindex/reindex.go:118-128 | Refuses a bad dimension or model; an existing side table is resumed, never emptied. |
| `ReindexRun.Reindexer.LiveVersionsAfter` | internal/documents/reindex.go:129-159 | The next live documents after the cursor in id order, none skipped, at least one asked for. |
| `ReindexRun.Reindexer.RowsFor` | internal/ingest/reindex/reindex.go:250-264 | Exactly the stored rows of a version, each position once, with their text, the new model and its vector. |
| `ReindexRun.Reindexer.InsertChunksNew` | internal/documents/reindex.go:192-235 | Replaces one version's rows whole when every row is acceptable, each stored with the text, vector and model given, and otherwise changes nothing. |
| `ReindexRun.Reindexer.Step` | internal/ingest/reindex/reindex.go:130-177 | From any cursor, success or failure leaves everything up to the returned cursor rebuilt; it fails only where some later version cannot be rebuilt; done means no live version is left; otherwise fewer remain. |
| `ReindexRun.Reindexer.Run` | internal/ingest/reindex/reindex.go:179-198 | Terminates, and is done exactly when every live version past the start can be rebuilt; then none is left and the side table is a full rebuild of the live versions and nothing more. |
| `ReindexRun.Reindexer.Swap` | internal/ingest/reindex/reindex.go:206-220 | Swaps exactly when coverage holds, and otherwise changes nothing. |
| `ReindexRun.Reindexer.DropOld` | internal/ingest/reindex/reindex.go:222-237 | Drops the retired table exactly when the live one covers every live version. |
| `Pools.EveryInterleaving` | internal/tenant/pool_cache.go:34-161 | Under any interleaving of hits, builds outside the lock, installs, closes, idle sweeps and close-all: one slot per tenant, at most the cap, in recency order, and every pool ever built in exactly one of flight, cache and closed, once. |
| `Pools.StepKeepsInv` | internal/tenant/pool_cache.go:69-161 | Each critical section keeps that invariant. |
| `Pools.GetReturnsLive` | internal/tenant/pool_cache.go:69-102 | get returns a pool dialled for the tenant asked for, cached under it and never closed. |
| `Pools.InstallKeepsIff` | internal/tenant/pool_cache.go:88-101 | A dialled pool is cached exactly when the tenant was not cached by the time it landed, and else closed at once. |
| `Pools.TwoMissesTwoDials` | internal/tenant/pool_cache.go:34-37 | Two concurrent misses dial twice and close one pool: the "at most once per tenant" of the comment is not kept under concurrency. |
| `Pools.SweepTakesSuffix` | internal/tenant/pool_cache.go:113-125 | Under a monotone clock the idle sweep keeps a prefix of the list and drops exactly the suffix older than the cutoff. |
| `Pools.EvictionTakesOldest` | internal/tenant/pool_cache.go:146-153 | Eviction keeps a prefix within the cap and closes exactly the pools behind it, from the back, none used later than one it keeps. |
| `PoolUse.StampsAreUses` | internal/tenant/pool_cache.go:69-102 | On every run each slot is stamped with the last time its tenant was handed a pool, and the list runs from the last used to the least. |
| `PoolUse.UsedMeans` | internal/tenant/pool_cache.go:69-102 | What counts as a use: a step that hands the tenant a pool, at its time; no other step moves the tenant's last use. |
| `PoolUse.UseMovesToFront` | internal/tenant/pool_cache.go:73-79 | A use brings the tenant's slot to the front, stamped now, with the pool it had; every other slot is as it was. |
| `PoolUse.LandingEvictsLeastUsed` | internal/tenant/pool_cache.go:98-101 | A new pool comes to the front; nothing else goes while there is room, and otherwise as many as exceed the cap, none used later than one that stays. |
| `PoolUse.OthersKept` | internal/tenant/pool_cache.go:104-144 | Close takes that tenant's slot only, the idle sweep exactly those stamped before the window, close-all every one, a dial none. |
| `PoolUse.LeastRecentlyUsedGoes` | internal/tenant/pool_cache.go:113-153 | On every run the sweep keeps exactly the tenants used within the window, and an eviction takes those used longest ago. |
| `PoolCaching.PoolCache.Lookup` | internal/tenant/pool_cache.go:71-80 | First critical section against the machine: after a hit the tenant is in front, stamped now, with the pool returned; after a miss nothing changed. |
| `PoolCaching.PoolCache.Install` | internal/tenant/pool_cache.go:88-102 | Second critical section: keep theirs and close ours, or insert and evict, the tenant in front and stamped now either way, with list and map a bijection throughout. |
| `PoolCaching.PoolCache.Close` | internal/tenant/pool_cache.go:104-111 | Removes and closes exactly the tenant's pool. |
| `PoolCaching.PoolCache.SweepIdle` | internal/tenant/pool_cache.go:113-125 | The back-to-front walk leaves the recent slots and closes the others in that order. |
| `PoolCaching.PoolCache.CloseAll` | internal/tenant/pool_cache.go:134-144 | Closes every cached pool once, front to back, and empties list and map. |
| `PoolCaching.PoolCache.EvictOverCap` | internal/tenant/pool_cache.go:146-153 | Cuts the list to the cap, closing from the back. |
| `PoolCaching.PoolCache.RemoveAt` | internal/tenant/pool_cache.go:155-161 | Unlinks, forgets and closes one entry, the bijection kept. |
| `Registry.CachingRegistry.Cached` | internal/tenant/registry.go:53-59 | Against the machine: a hit exactly when the machine can serve from this cache, a miss exactly when it must begin a load, and the record the machine returns. |
| `Registry.CachingRegistry.Fill` | internal/tenant/registry.go:66-69 | For any load the machine can finish, whatever happened since it began, the cache becomes the machine's after finishing it. |
| `Registry.CachingRegistry.Invalidate` | internal/tenant/registry.go:72-78 | The cache becomes the machine's after dropping the tenant. |
| `Registry.LoadedServesOneTtl` | internal/tenant/registry.go:53-59 | A loaded record is served for exactly one ttl from when it landed, whatever goes on for other tenants, and only then does a Lookup load again. |
| `Registry.StepKeepsInv` | internal/tenant/registry.go:52-78 | Every cached or loading value was the control plane's at its recorded instant. |
| `Registry.BoundedStaleness` | internal/tenant/registry.go:52-70 | Under any interleaving of lookups, loads and invalidations, a record returned at t was the control-plane value at some instant no earlier than t - ttl - the longest load. |
| `Registry.InvalidateTakesEffectIff` | internal/tenant/registry.go:61-78 | No continuation ever holds an older value if and only if no load in flight for the tenant has read yet; one that has lands afterwards and undoes the invalidation. |
| `Registry.LookupAfterInvalidate` | internal/tenant/registry.go:72-78 | A Lookup after an undisturbed invalidation returns a value read after it. |
| `Resolver.Decide` | internal/tenant/resolver.go:64-94 | Which record yields which outcome, status before schema, each outcome both ways. |
| `Resolver.ServedIsMigrated` | internal/tenant/resolver.go:85-88 | Through stale cache entries, failed migrations, crashes and concurrent runners, a tenant that Open serves has at least the expected migrations applied at that moment. |
| `CloseReload.CloseReloadsIff` | internal/tenant/resolver.go:97-102 | Registry and pool cache as one machine, with Opens between their two lookups: every pool handed out for a tenant after Close's second drop was dialled from a record read after it if and only if no load that has read, no Open holding a record, no dial in flight and no pool cached meanwhile was left. |
| `CloseReload.CloseAtOnceReloadsIff` | internal/tenant/resolver.go:99-102 | When nothing runs between the two drops, the cached pool is not among what can be left. |
| `CloseReload.CloseOnEveryRun` | internal/tenant/resolver.go:64-102 | Both on every run from empty caches, under any interleaving of Opens, loads, dials, sweeps and invalidations. |
| `Migration.ExpectedVersion` | internal/migrate/tenant.go:38-61 | The highest embedded version, an error exactly when none is positive. |
| `Migration.StepKeepsInv` | internal/migrate/tenant.go:306-350 | Register, create database, lock, advance, read back, commit and abandon keep recorded versions at or below applied ones, one runner per tenant. |
| `Migration.CommitReaches` | internal/migrate/tenant.go:326-347 | A commit leaves its tenant recorded at, and applied to, every migration its runner carries. |
| `Migration.RecordedIsApplied` | internal/migrate/tenant.go:306-313 | In every history, what was recorded at one point is applied then and at every later point. |
| `Migration.Fleet.MigrateOne` | internal/migrate/tenant.go:313-350 | One tenant: held, without a database, failed part-way, not written back, or brought to the highest version, with the outcome and both versions exact in each case. |
| `Migration.Fleet.RunAll` | internal/migrate/tenant.go:270-304 | One complete run past individual failures: nobody moves back, the failed ones are exact, the rest is recorded and applied at the highest version; without failures everyone is there exactly when each held tenant already was, because a held tenant is reported as migrated. |
| `Migration.Rerun` | internal/migrate/tenant.go:270-304 | A rerun with nothing held or failing brings every tenant that has a database to the highest version, whatever the first run left, and fails exactly the others. |
| `JsonScan.ExtractJSONArray` | internal/rerank/llm.go:140-170 | Returns the shortest balanced span from the first bracket, and nothing exactly when there is none. |
| `JsonExtract.NeutralJson` | internal/rerank/llm.go:148-168 | Every JSON value printed per RFC 8259, sections 3 to 7, read outside a string, returns the scanner to its state without ever dipping below. |
| `JsonExtract.ArrayIsBalanced` | internal/rerank/llm.go:148-168 | A printed array closes at its last character and not before. |
| `JsonExtract.PrintedArrayIsTheSpan` | internal/rerank/llm.go:140-170 | After any prefix without a bracket and before any suffix, the printed array is the span. |
| `JsonExtract.ExtractedIsPrinted` | internal/rerank/llm.go:140-170 | What the scanner promises pins its result to the printed array, brackets and escaped quotes inside strings included. |
| `Rerank.ParseRanking` | internal/rerank/llm.go:124-137 | The entries are those of the first valid mentions of each passage, in the order of the reply, each with its own score; an error exactly when there is none. |
| `Rerank.KeptMeans` | internal/rerank/llm.go:124-137 | Each passage once, and exactly the passages named validly somewhere. |
| `Rerank.KeptInOrder` | internal/rerank/llm.go:124-137 | By positions in the reply alone: entry i is the i-th position that is first to name its passage validly, with that passage and that score. |
| `Rerank.CleanRankingIsKept` | internal/rerank/llm.go:124-137 | A reply without repeats or foreign passages is kept entry for entry. |
| `Rerank.EnsureDescending` | internal/rerank/llm.go:172-193 | The scan, the repair and the stable sort together keep or synthesise the scores without moving an entry. |
| `Rerank.RepairedDescends` | internal/rerank/llm.go:172-193 | The result descends strictly with every id where it was. |
| `Rerank.OrderMissingLast` | internal/rerank/rerank.go:228-249 | First score per id in order, then the documents the provider left out. |
| `Rerank.FirstWins` | internal/rerank/rerank.go:234-241 | Of repeated ids the first wins, and what is kept stays in the provider's order. |
| `Rerank.ReorderByScore` | internal/retrieve/service.go:285-312 | Map, used set and three loops against the ranked, unranked and tail parts. |
| `Rerank.UnrankedInOrder` | internal/retrieve/service.go:306-310 | The head results that the scores do not name come in their own order, all of them. |
| `Rerank.RerankDocs` | internal/rerank/llm.go:34-68 | The reranker as a composition; it fails exactly when the reply does not decode or names no passage. |
| `Rerank.ApplyRerank` | internal/retrieve/service.go:260-283 | The five functions end to end: the head permuted into one explicit order with only scores replaced, the tail as it was, and the untouched list on any failure. |
| `Rerank.OrderIsPermutation` | internal/rerank/llm.go:108-138 | Ranked passages followed by omitted ones list every head position exactly once. |
| `Rerank.RearrangedIsPermutation` | internal/retrieve/service.go:285-312 | No result is lost, duplicated or altered beyond its score. |
| `Rerank.ChainOrder` | internal/retrieve/service.go:260-312 | From a parseable reply: a permutation, ranked ones first with strictly descending scores, omitted head results at zero, tail untouched. |
| `Rerank.ChainFollowsReply` | internal/rerank/llm.go:58-67 | And against the reply itself: the i-th result is the passage of its i-th first mention, with the score given there when those scores fall strictly, else (m - i)/m. |
| `Rerank.HeadFallsIff` | internal/rerank/rerank.go:228-232 | The head descends as a whole exactly when nothing was omitted or no ranked score is negative. |
| `Paging.ProbeCut` | internal/documents/service.go:112-121 | Cutting the one-row probe leaves the first rows past the cursor, and a next cursor exactly when a row remains. |
| `Paging.ScanReturnsOnceInOrder` | internal/documents/service.go:90-126 | Whatever is inserted or deleted between pages, a scan returns no row twice, all in order, each present when returned. |
| `Paging.FinishedScanMissesNothingSteady` | internal/documents/service.go:90-126 | A finished scan returned every row that existed and matched throughout. |
| `Paging.FixedDataIsWholeList` | internal/documents/service.go:90-126 | On fixed data the pages join into the full sorted list. |
| `Paging.CursorAdvances` | internal/documents/service.go:117-121 | Each page with a cursor has moved strictly past its own. |
| `Paging.Query` | internal/documents/store.go:80-105 | The first rows past the cursor in order, as many as the limit allows. |
| `Paging.List` | internal/documents/service.go:106-125 | One page of documents at the clamped limit, first seen never rising along it and ids falling among equals. |
| `Paging.ListAll` | internal/documents/service.go:90-126 | Following cursors to the end on fixed data terminates with every row exactly once, in order. |
| `Paging.Chunks` | internal/documents/service.go:137-166 | One page of chunk positions at the clamped limit, rising, all after the cursor, or after -1 at the start. |
| `Paging.ChunkStart` | internal/documents/store.go:178-190 | A chunk scan is a scan of the non-negative positions, complete exactly when no position is negative. |
| `Paging.ClampLimit` | internal/documents/documents.go:158-168 | Always between 1 and 200, a limit in that range kept. |
| `Keyring.Encrypt` | internal/crypto/envelope.go:71-81 | The bytes written: version / 256, version % 256, the twelve nonce bytes, the sealed output. |
| `Keyring.HeaderRoundTrips` | internal/crypto/envelope.go:101-108 | All 65536 versions are read back from the header, whatever follows it. |
| `Keyring.HeaderOfRead` | internal/crypto/envelope.go:101-108 | Conversely every two leading bytes are the header of the version read from them. |
| `Keyring.CipherRoundTrips` | internal/crypto/envelope.go:83-99 | Decrypt undoes Encrypt for any AEAD whose Open undoes its Seal. |
| `Keyring.OpensOnlyItsOwn` | internal/crypto/envelope.go:83-99 | A ciphertext opens exactly when it has at least fourteen bytes, carries the cipher's own version big-endian, and is authentic under its key. |
| `Keyring.NewKeyring` | internal/crypto/keyring.go:19-36 | Refused exactly on a nil cipher; the primary wins, earlier previous keys win over later ones at a version, every version given is present. |
| `Keyring.RingRoundTrips` | internal/crypto/keyring.go:38-50 | What the primary seals opens on every ring of the fleet that holds the keys. |
| `Keyring.Reencrypt` | internal/crypto/keyring.go:55-73 | Unchanged exactly when empty or current; otherwise current and opening to the same plaintext on every reader; fails exactly when the secret does not open or no nonce can be had. |
| `Keyring.Column.Sweep` | internal/cli/keys.go:98-140 | Stopped at any row or failing anywhere: every secret is untouched or resealed to the same plaintext, the count is the number brought under the primary, done means none is left, and it gets done when every secret opens. |
| `Keyring.Column.SweepRow` | internal/cli/keys.go:126-138 | One row, updated only when its bytes changed; fails exactly when Reencrypt does. |
| `Keyring.SweepsCompose` | internal/cli/keys.go:58-61 | An interrupted sweep and its restart amount to one, their counts add up without overlap, and a sweep after a finished one writes nothing. |
| `Keyring.ReadersKeepReading` | internal/crypto/keyring.go:5-13 | At every point each process that holds the keys reads of each row what it read before. |
| `CircuitBreaker.Breaker.Allow` | internal/llm/breaker.go:47-61 | Refuses exactly while open before the cooldown ends; an admitted call on an open breaker makes it a trial. |
| `CircuitBreaker.Breaker.Record` | internal/llm/breaker.go:63-85 | The whole new state after a success, a failed trial and a failure below or at the threshold. |
| `CircuitBreaker.Breaker.Trip` | internal/llm/breaker.go:87-91 | Opens for one cooldown from now and forgets the count. |
| `CircuitBreaker.WindowBound` | internal/llm/breaker.go:8-14 | In any window of length T of any sequential run the failing calls number at most threshold + T/cooldown, plus a threshold for each success in the window. |
| `CircuitBreaker.BoundIsReached` | internal/llm/breaker.go:8-14 | The bound is tight: a caller that keeps asking gets exactly that many failing calls through. |
| `CircuitBreaker.TripsOnStreakOnly` | internal/llm/breaker.go:63-85 | A fresh breaker stays closed exactly as long as among any threshold calls in a row one succeeds. |
| `CircuitBreaker.StaysClosedIff` | internal/llm/breaker.go:63-85 | The same from any closed state, its failures so far counted in; while it stays closed every call is admitted. |
| `CircuitBreaker.TrialDecides` | internal/llm/breaker.go:12-14 | A success closes the breaker with a clean count, whatever the state; a failing trial reopens it for a cooldown from its end. |
| `CircuitBreaker.DisabledAdmitsAll` | internal/llm/breaker.go:47-50 | With a threshold that is not positive every call is admitted and nothing moves. |
| `Retry.RetryValue` | internal/llm/llm.go:350-390 | At most maxRetries+1 raw calls, all but the last transient failures; the reply is the first success, the first terminal error, the last transient one, or the breaker's refusal; each sleep is the back-off for the failure before it; the breaker ends where the run of passes leaves it. |
| `Retry.BackoffIsCappedDoubling` | internal/llm/retry.go:34-43 | Without a hint the delay is min(5 s, 200 ms * 2^(n-1)) for every attempt n under 64-bit two's-complement shifting. |
| `Retry.LateShiftsAreCoarse` | internal/llm/retry.go:38-41 | From 24 shifts on the wrapped value is a multiple of 2^33, so it is never positive and at most 5 s. |
| `Retry.BackoffGrows` | internal/llm/retry.go:34-43 | The delay is positive, monotone in the attempt and capped. |
| `Retry.HintIsNotCapped` | internal/llm/retry.go:34-37 | With a Retry-After the delay is the hint, under the cap exactly when the hint is. |
| `Retry.TotalWaitClosed` | internal/llm/llm.go:360-366 | The waits before n attempts sum to 200 ms * (2^n - 1) up to five and grow by 5 s each after. |
| `Retry.WaitsWithoutHints` | internal/llm/llm.go:360-366 | That sum is what the loop sleeps when no failure carries a Retry-After. |
| `Retry.CallsInTurn` | internal/llm/llm.go:354-390 | Any number of logical calls in turn on one breaker is one sequential run of it, state and counts of raw calls included. |
| `Retry.SessionsBound` | internal/llm/llm.go:354-390 | All of them together, after any history, send at most threshold + T/cooldown failing raw calls in a window of length T, and a threshold more per success. |
| `Retry.StretchBound` | internal/llm/llm.go:354-390 | The same for a window that cuts through logical calls: any stretch of their passes that starts within it. |

## Left out

Whole parts:

- Provisioning, tenant lifecycle, the job queue, scheduler, limiter, answer assembly, configuration, HTTP, telemetry and the user interface: plumbing, or members that would be easy.
- Vector distance, full-text rank, embeddings and `metadata @>` are abstract functions and predicates; index recall and query planning are not modelled.
- AES-GCM is a pair of functions of which only "Open undoes Seal under the same nonce" is assumed, as a hypothesis; secrecy, nonce uniqueness and key zeroing are not modelled.
- Scores are reals, not floats.

Modelling choices:

- Ids come from the caller as unused numbers, standing for gen_random_uuid; text that should be a UUID is an Option, absent when malformed. Chunk rows are keyed by (version, position), which the schema makes unique, instead of by their own id.
- Each transaction is atomic and serial. Put's lookup is separate from the transaction that acts on it, but anomalies of read-committed isolation inside one transaction, unique-key races between two inserts and lock timeouts are not modelled. Now() is one parameter per call.
- Errors of the database or the network end an operation part-way; where that leaves a state between transactions, the interleaving results cover it, and the error values themselves are not modelled.
- Tables without a bearing on the results are absent: connector_state, products, query feedback, and the columns raw_ref, raw_json, parser and char_count.
- Fused lists, pages and batches take ties in any order, but the fused query is taken to break ties the same way at every limit (`IsFused`) and rank columns to follow the list order.
- The list class of the pool cache holds its linked list as a sequence of entry objects, so element links are not modelled; a nil pool is not either.
- Parallel workers of the migration runner appear as interleavings of the machine; `RunAll` takes one runner's tenants in turn. Goose is its version only, and a failed migration leaves the last version it finished.
- LIKE is modelled over characters; Go's loop over invalid UTF-8 and database collations are not.
- The text a model returns is decoded by encoding/json, which is not part of this model: the chain starts from the decoded entries, and an absent reply stands for any decoding failure. The scanner reads one char per byte.
- sort.SliceStable is represented by an insertion sort with the two properties used of it. Cursor tokens (base64 of JSON) are their decoded value, and a malformed token's refusal is not modelled.
- The breaker's clock and the retry loop's clock are one integer; cancellation of a context is seen at sleeps only.

Deliberately weaker or narrower:

- Store.TenantStore.CollectGarbage: nothing runs between its batches (DrainRace has any store transactions there, one class at a time).
- SyncSeries.SeriesThenSweep: nothing else may delete documents of the source during the series, and clocks must not run back before its start.
- SyncSeries.Ingest: nothing runs between its two store calls (SyncSeries.IngestedIsSeen has other transactions between them), and the parse, chunk and embed stages there are not modelled; nor is Complete's skip on zero documents seen.
- ReindexRun.Reindexer.Run: no other transaction runs during the rebuild (ReindexRace has them interleaved with the insertions), and the re-chunking path and the title context line in the embedded text are not modelled.
- ReindexRun.Reindexer.Swap: check and renames are joined, where the code leaves a gap; ReindexRace.PutBetweenCheckAndSwap states what the gap costs. A second reindex, whose index names would collide, is not modelled.
- Keyring.Column.Sweep: no other writer of the column during the sweep, which updates by id unconditionally.
- CircuitBreaker.WindowBound: sequential use only; under concurrency a half-open breaker admits every caller.
- Rerank.ApplyRerank: chunk ids of the fused list are distinct, as its grouping makes them.
- Pools.EveryInterleaving: the clock read under the lock is monotone.
- Migration.StepKeepsInv: tenants are registered and given a database but never removed.
- Registry.BoundedStaleness: a load reads the control plane once, at some instant inside it.
