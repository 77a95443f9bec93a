# Vektra: a verified model of the chunk lifecycle and the services around it

Vektra turns documents into chunks, stores the chunks under an index version in a vector store
(Qdrant or pgvector), finds them again for a question, and keeps conversations, API keys and
rate limits. This project models that core in Dafny and proves what its code promises, or, where
the code promises more than it does, exactly when the promise holds.

`dafny verify dfyconfig.toml` checks everything. Every lemma switches Dafny's automatic induction
off, so the proof of a lemma is what its body says.

## How the system is modelled

- **Chunks.** Text is a sequence of tokens. A tokenizer's decode is a predicate on slices, so the
  branches that skip an undecodable slice are part of the model. An embedder is a function from text to vector.
- **Ids.** A stored id is uuid5(document, name), section 5.5 of RFC 9562, taken as injective. The
  names `"{position}"` and `"{position}:v{version}"` are proved injective and disjoint as strings.
- **Vector store.** One map of points keyed by id holds all index versions. The class carries
  both providers: Qdrant upserts and compensates by deleting the batch unless the call timed out;
  pgvector inserts as one transaction and fails on a taken id. A store call may fail after any
  subset of its points was applied.
- **Documents.** A table with soft deletion, versions that supersede each other, aliases, and the
  two partial unique indexes.
- **Steps and failures.** Each awaited call is one atomic step, and each may fail; the faults of a
  run are parameters. `states` and `tables` list exactly what is visible between the steps.
- **Runs.** Operations follow one another. `Ledger` is what an operator can write down while they do: which versions
  of which namespaces ingests wrote to, and which of them a job may have left in pieces. A switch never looks at the
  collection; what it serves is proved from the ledger and the outcome of the job.
- **Concurrency.** Conversation transactions and bootstrap requests interleave statement by
  statement: every statement is a method that keeps the invariant from any state of the others.
- **Numbers.** Scores and times are exact reals; the 0.8 overlap threshold is 5·|A∩B| > 4·min(|A|,|B|).

Files, lowest first: `Support`, `ChunkIds`, `Chunking`, `DualChunking`, `Embedding`, `VectorStores`,
`ChunkCopies`, `Reindex`, `ReindexRun`, `ReindexLifecycle`, `DocumentTable`, `ChunkLinks`,
`ReindexOutcome`, `IngestBatch`, `IngestRun`, `StrayChunks`, `IngestPipeline` (module `Ingest`), `DocumentDeletion`,
`SystemSteps`, `StaleTargets`, `Ledgers`, `SystemRuns`;
`Conversations`, `RateLimits`, `KeyStores`, `Bootstrap`; `Budget`, `RetrievalFilters`, `RankFusion`,
`ParentExpansion`.

## Where code and documentation differ

The model follows the code.

- `reindex.py:173-174` and `qdrant.py:239` call a re-run idempotent. It is on Qdrant
  (`ReindexLifecycle.RerunReindex`). On pgvector a re-run meets the primary key as soon as one copy is in place,
  so after a completed run always (`ReindexLifecycle.PgvectorRerunIff`).
- `docs/reference/api.md:1087-1102` lets a version be switched to once a job completed with the expected number of
  chunks. That serves exact copies of the job's documents (`SystemSteps.SwitchOver`). Of everything else the version
  serves what it held before: the other namespaces, for which nothing may have been copied yet, and documents no
  longer live, of which an earlier job may have left a child without its parent (`StaleTargets.LeftoverChildServed`).
  `ChunkLinks.CompletedTargetValid` is the exact condition.
- A target version that ingest filled earlier is not replaced by a reindex, because the ids differ:
  `ChunkCopies.TargetExactIff` gives the exact condition.
- `pipeline.py:274-275` (ingest) says a superseded document's chunks do not show in a search. True on
  pgvector; on Qdrant they show until their hard delete goes through (`Ingest.SupersededHidden`).
- `qdrant.py:237-239` keeps the points of a timed-out call so that a retry finds them, but ingest never retries
  under the same document id: it cleans the row up. Such points stay searchable, a child possibly without its
  parent (`StrayChunks.StrayChildHasParentIff`). While the served version is valid, which every operation but a
  switch keeps and a switch keeps under the condition above, every other searchable child has its parent
  (`ChunkLinks.SearchableChildHasParent`); the row's deletion reason tells the two apart.
- The single delete removes chunks before the row so that deleted content never answers; the batch
  delete goes the other way round and on Qdrant lacks that guarantee (`DocumentDeletion.BatchDelete`).
- `pgvector.py:288` gives a missing rank as top_k + 1; the code uses fetch_k + 1.
- `chunking.py:138-139` says a parent's parent_id is None; the code gives the parent its own id.
- After an undecodable slice the fixed chunker skips an index and the dual one does not.

## Model

| member | source | states |
|---|---|---|
| `ChunkIds.SameNameSameChunk` | vektra-index/src/vektra_index/reindex.py:167-176 | two ids come from the same document and rendered name exactly when they are the same id |
| `ChunkIds.NamesDisjoint` | vektra-index/src/vektra_index/reindex.py:170-176 | a reindex name is never an ingest name, so a copy cannot overwrite a live chunk |
| `ChunkIds.TargetNamesInjective` | vektra-index/src/vektra_index/reindex.py:173-176 | position and version can be read back from a reindex name |
| `Chunking.NothingSkipped` | vektra-ingest/src/vektra_ingest/chunking.py:94-123 | the loop emits the full tiling exactly when every slice decodes |
| `Chunking.WindowsAreSlices` | vektra-ingest/src/vektra_ingest/chunking.py:94-123 | whatever is skipped, each chunk is the slice at its start and its number counts the attempts |
| `Chunking.WindowsComplete` | vektra-ingest/src/vektra_ingest/chunking.py:94-123 | an attempt is emitted exactly when its slice decodes and no earlier decodable slice reached the end: an undecodable slice costs itself and no other |
| `Chunking.WindowsNeverNest` | vektra-ingest/src/vektra_ingest/chunking.py:94-123 | whatever is skipped, a later window starts later and ends later: none lies inside another |
| `Chunking.TilingReconstructs` | vektra-ingest/src/vektra_ingest/chunking.py:90-123 | the windows of a loop that skips nothing, laid over each other, are the tokens |
| `Chunking.WindowsReconstructIff` | vektra-ingest/src/vektra_ingest/chunking.py:94-123 | the windows emitted, laid over each other, are the tokens exactly when every slice decodes |
| `Chunking.TilingCount` | vektra-ingest/src/vektra_ingest/chunking.py:90-123 | one window up to the size, otherwise ceil((n - size) / step) + 1 |
| `Chunking.CollectTokens` | vektra-ingest/src/vektra_ingest/chunking.py:75-85 | one token list of all elements, the metadata of the first that has tokens, the set of kinds |
| `Chunking.EmitWindows` | vektra-ingest/src/vektra_ingest/chunking.py:90-123 | the window loop emits the decoded windows with their attempt numbers |
| `Chunking.ChunkFixedSize` | vektra-ingest/src/vektra_ingest/chunking.py:54-123 | refuses an overlap not below the size, otherwise emits the fixed chunks of all elements |
| `Chunking.FixedChunksShaped` | vektra-ingest/src/vektra_ingest/chunking.py:68-123 | each fixed chunk is a decodable slice within the size, marked as text, with the kinds of all elements and the metadata of the first element with text |
| `Chunking.FixedChunksReconstruct` | vektra-ingest/src/vektra_ingest/chunking.py:68-123 | the chunks, laid over each other, are the text of all elements exactly when every window decodes; then they are numbered 0, 1, 2, ... |
| `DualChunking.CollectSegments` | vektra-ingest/src/vektra_ingest/chunking.py:187-220 | pass one: the text runs between unsplit tables, in order; what they hold is stated by `DualChunking.SegmentsConserve` |
| `DualChunking.SegmentsConserve` | vektra-ingest/src/vektra_ingest/chunking.py:186-220 | the segments hold, in order, the text of every element whose kind is not PageBreak or Image, and of no other |
| `DualChunking.RunsSeparated` | vektra-ingest/src/vektra_ingest/chunking.py:186-220 | text is one run up to the next table: no two runs stand side by side, none is empty |
| `DualChunking.EmitFamily` | vektra-ingest/src/vektra_ingest/chunking.py:259-316 | a parent followed by its decoded child windows |
| `DualChunking.EmitParents` | vektra-ingest/src/vektra_ingest/chunking.py:251-318 | the parent loop emits one family for each section that decodes |
| `DualChunking.EmitSegments` | vektra-ingest/src/vektra_ingest/chunking.py:222-318 | pass two over all segments with one running chunk index |
| `DualChunking.ChunkDual` | vektra-ingest/src/vektra_ingest/chunking.py:149-318 | both configuration errors, otherwise the dual chunks of all elements, which `DualChunking.DualConservation`, `DualChunking.DualParents`, `DualChunking.TablesUnsplit` and `DualChunking.DualChunksShaped` describe by kind, level and text |
| `DualChunking.DualChunksLinked` | vektra-ingest/src/vektra_ingest/chunking.py:251-318 | chunk_index runs 0, 1, 2, ...; each child points back to a parent whose tokens contain its own |
| `DualChunking.DualConservation` | vektra-ingest/src/vektra_ingest/chunking.py:186-318 | parents and tables in order give back the text of every element but page breaks and images, exactly when every parent section decodes |
| `DualChunking.DualParents` | vektra-ingest/src/vektra_ingest/chunking.py:251-282 | the parents are exactly the decodable sections of the runs, in order |
| `DualChunking.SectionsExact` | vektra-ingest/src/vektra_ingest/chunking.py:251-258 | sections are consecutive pieces of a run, all of the parent size but perhaps the last |
| `DualChunking.EmitKeepsDecodable` | vektra-ingest/src/vektra_ingest/chunking.py:222-318 | an undecodable section costs its own text and no other |
| `DualChunking.DualChunksShaped` | vektra-ingest/src/vektra_ingest/chunking.py:222-318 | a chunk is a table without a level or a decoded text within the size of its level, with the metadata of an element whose text opens its run |
| `DualChunking.TablesUnsplit` | vektra-ingest/src/vektra_ingest/chunking.py:197-242 | the tables emitted are the tables given: whole, once each, in order, plain text as html |
| `DualChunking.ChildrenCoverParent` | vektra-ingest/src/vektra_ingest/chunking.py:284-316 | the children of a parent, laid over each other, are the parent's text exactly when each of their windows decodes |
| `Embedding.EmbedDocuments` | vektra-index/src/vektra_index/reindex.py:280-287 | a provider raises, answers each text with its vector, or answers with another number of vectors |
| `VectorStores.TargetIdAtItsVersion` | vektra-index/src/vektra_index/reindex.py:167-176 | in a well-named collection a reindex id for version v only ever stands at v |
| `VectorStores.StoreStaysInBatch` | vektra-index/src/vektra_index/providers/qdrant.py:229-261 | a store that fails in any way leaves every id outside its batch alone |
| `VectorStores.VectorStore.Upsert` | vektra-index/src/vektra_index/providers/qdrant.py:229-234 | the entries applied are written, later ones winning, and nothing else changes |
| `VectorStores.VectorStore.InsertAll` | vektra-index/src/vektra_index/providers/pgvector.py:57-119 | all rows or none: a taken or repeated id rolls the transaction back |
| `VectorStores.VectorStore.StoreRows` | vektra-index/src/vektra_index/adapters.py:61-106 | one document per call, which batches of several documents fail, one transaction |
| `VectorStores.VectorStore.StoreVectors` | vektra-index/src/vektra_index/providers/qdrant.py:229-263 | success, rejection with compensating delete, or timeout without one |
| `VectorStores.VectorStore.Store` | vektra-index/src/vektra_index/providers/qdrant.py:172-263 | which points are stored and which error is returned, at the given or the active version |
| `VectorStores.VectorStore.ScrollAll` | vektra-index/src/vektra_index/providers/qdrant.py:411-473 | the page loop gathers every matching point once |
| `VectorStores.VectorStore.ListChunks` | vektra-index/src/vektra_index/providers/qdrant.py:411-473 | exactly the document's chunks at the active version, each once, by position |
| `VectorStores.VectorStore.Retrieve` | vektra-index/src/vektra_index/providers/pgvector.py:411-446 | exactly the requested ids of this namespace at the active version, of live documents on pgvector |
| `VectorStores.VectorStore.CountChunks` | vektra-index/src/vektra_index/providers/pgvector.py:527-549 | the number of active-version chunks, joined with live documents on pgvector only |
| `VectorStores.VectorStore.Delete` | vektra-index/src/vektra_index/adapters.py:160-178 | removes the documents' chunks at every version as one transaction and returns their number |
| `VectorStores.VectorStore.DeleteIndexVersion` | vektra-index/src/vektra_index/providers/qdrant.py:550-590 | refuses the active version, changes nothing when the call fails, otherwise removes exactly that version of the namespace and counts it |
| `ChunkCopies.OtherVersionsUntouched` | vektra-index/src/vektra_index/reindex.py:276-342 | in every state a reindex can leave, every version but the target is what it was |
| `ChunkCopies.ViewsDependOnVersion` | vektra-index/src/vektra_index/providers/qdrant.py:411-512 | listing, counting and searching a version depend on its own points alone |
| `ChunkCopies.ServedReadsUnchanged` | vektra-index/src/vektra_index/reindex.py:276-342 | at every state of a reindex, failed ones included, the served version lists, searches and counts as before it |
| `ChunkCopies.RerunConverges` | vektra-index/src/vektra_index/reindex.py:173-176 | copying again over whatever a partial run left gives the collection of one complete run |
| `ChunkCopies.TargetExactIff` | vektra-index/src/vektra_index/reindex.py:289-324 | a document's target version holds its copies and nothing else exactly when all it had there stood at ids the copies overwrite |
| `ChunkCopies.CopyIsExact` | vektra-index/src/vektra_index/reindex.py:274-330 | after a reindex the document lists as the relabelled original: count, order, text, sparse vector, level, metadata, links |
| `ChunkCopies.StatesReembed` | vektra-index/src/vektra_index/reindex.py:280-324 | in every state of a reindex, whatever was not there before is a chunk of the job, at its target id, with the vector the embedder gives for its text and all else as it was but for the remapped parent |
| `ChunkCopies.CompleteReembeds` | vektra-index/src/vektra_index/reindex.py:280-324 | after a complete run every chunk of every document of the job stands so at its target id |
| `ChunkCopies.LinksCommute` | vektra-index/src/vektra_index/reindex.py:289-317 | the parent of a copy is the copy of the parent |
| `ChunkCopies.FreshTargetReplaceable` | vektra-index/src/vektra_index/reindex.py:289-324 | a target without points of the job's documents can be replaced, and none of its ids is taken |
| `ChunkCopies.TotalConserved` | vektra-index/src/vektra_index/providers/pgvector.py:551-582 | reindex, switch and reclaim conserve the total of the job's documents up to the target ids they already held; exactly, if and only if they held none; other versions in the namespace do not matter |
| `ChunkCopies.QdrantCountRestoredIff` | vektra-index/src/vektra_index/providers/qdrant.py:489-512 | by how much Qdrant's own count changes over the lifecycle; with a target fresh in the namespace it returns to its old value exactly when no counted point belonged to a document outside the job |
| `Reindex.TriggerReindex` | vektra-index/src/vektra_index/reindex.py:408-458 | refuses exactly a target equal to the active version, otherwise a pending job from the active version |
| `Reindex.BuildIdMap` | vektra-index/src/vektra_index/reindex.py:289-297 | every listed chunk, and nothing else, maps to its target id |
| `Reindex.BuildCopies` | vektra-index/src/vektra_index/reindex.py:299-318 | each chunk renamed and re-embedded, its parent remapped when listed and dropped otherwise; `ChunkCopies.CompleteReembeds` says so field by field |
| `Reindex.PrepareCopies` | vektra-index/src/vektra_index/reindex.py:289-318 | the batch built from a listing writes exactly the document's copies, each id once |
| `Reindex.ReindexDocument` | vektra-index/src/vektra_index/reindex.py:277-330 | which fault or taken id stops a document, and what the collection holds either way |
| `ReindexRun.StepDocument` | vektra-index/src/vektra_index/reindex.py:276-342 | one iteration: copies, counters and progress, or the first problem met |
| `ReindexRun.CopyDocuments` | vektra-index/src/vektra_index/reindex.py:274-352 | the loop stops at the first problem; counters equal what was copied; the states it passes through are listed exactly, and all are reindex states |
| `ReindexRun.RunReindex` | vektra-index/src/vektra_index/reindex.py:179-400 | completes exactly when nothing stops it, all documents processed; then every chunk of the job stands at its target id with the vector of its text; lists exactly the states it passes through, in each of which every version but the target is unchanged and whatever is new is a chunk embedded anew |
| `ReindexRun.RunCompletesIff` | vektra-index/src/vektra_index/reindex.py:206-374 | a job completes exactly when none of its steps fails, each document with chunks gets as many vectors and, on pgvector, finds none of its target ids taken, and there is something to store |
| `ReindexLifecycle.SmoothRunCompletesIff` | vektra-index/src/vektra_index/reindex.py:173-176 | without faults a run completes exactly when there is something to store and, on pgvector, no target id is taken |
| `ReindexLifecycle.PgvectorRerunIff` | vektra-index/src/vektra_index/reindex.py:167-176 | a second run on pgvector completes exactly when no copy of the first is in place; after a completed run it always fails |
| `ReindexLifecycle.RerunReindex` | vektra-index/src/vektra_index/reindex.py:167-176 | on the upsert store a second run repairs whatever the first one left: no duplicates, nothing lost |
| `ReindexLifecycle.ReindexSwitchReclaim` | vektra-index/src/vektra_index/reindex.py:199-202 | the documented order of operations: a job that did not complete leaves the served version alone, a failed reclaim leaves both versions with the new one served |
| `ReindexLifecycle.LifecycleExact` | vektra-index/src/vektra_index/reindex.py:274-374 | at the end each document whose target was fresh or overwritten reads back as its exact relabelled copy; the stored total is conserved exactly when no target id was taken, so always from a fresh target |
| `ReindexOutcome.JobLeavesWhole` | vektra-index/src/vektra_index/reindex.py:276-342 | whatever stops a job whose store calls leave no points behind, each document has at the target ids all its copies, what stood there, or nothing |
| `ReindexOutcome.WholeIsValid` | vektra-index/src/vektra_index/reindex.py:289-318 | such a document has distinct positions and containing parents at the target, if it had them at both versions before |
| `DocumentTable.LiveBy` | vektra-ingest/src/vektra_ingest/pipeline.py:181-249 | the live row with this content or this filename, at most one by the index on that column |
| `DocumentTable.History` | vektra-ingest/src/vektra_ingest/pipeline.py:250-253 | the chain of superseded rows: as long as the version number, counting down, one namespace and filename |
| `DocumentTable.HistoryNeverRepeats` | vektra-ingest/src/vektra_ingest/pipeline.py:250-253 | the chain never returns to a row, so supersede chains end |
| `DocumentTable.InsertKeeps` | migrations/versions/0002_phase2_tables.py:150-154 | a new live row that clashes with none keeps both indexes and every version link |
| `DocumentTable.RestoreNeedsCleanupFirst` | vektra-ingest/src/vektra_ingest/pipeline.py:438-443 | restoring before the failed successor is cleaned up breaks the filename index; afterwards only a third row could stand against it |
| `ChunkLinks.SearchableChildHasParent` | vektra-core/src/vektra_core/advanced_pipeline.py:455-467 | every searchable child, of live, superseded and deleted documents alike, has a fetchable parent of the same document whose text contains its own, unless a failed ingest left it behind |
| `ChunkLinks.SearchHitStandsOrHasParent` | vektra-index/src/vektra_index/providers/pgvector.py:165-193 | whatever a search returns of an ingested document is at the served version of the namespace, of a live row on pgvector, and a chunk that stands alone or a child with its fetchable parent, never a parent itself |
| `ChunkLinks.FetchParent` | vektra-index/src/vektra_index/providers/pgvector.py:411-446 | a fetch of that parent id returns exactly that parent |
| `ChunkLinks.CopiesLinked` | vektra-index/src/vektra_index/reindex.py:289-318 | a completed reindex gives the target version the same valid links |
| `ChunkLinks.ReindexKeepsCollection` | vektra-index/src/vektra_index/reindex.py:276-342 | during a reindex and after any outcome of it, every ingested document stays valid at the active version |
| `ChunkLinks.CompletedTargetValid` | vektra-index/src/vektra_index/reindex.py:274-374 | after a completed job that overwrote what its documents had at the target, the target is valid exactly when every ingested document outside the job was valid there already |
| `ChunkLinks.ReclaimKeepsCollection` | vektra-index/src/vektra_index/reindex.py:493-548 | reclaiming any version but the served one keeps every ingested document valid |
| `StrayChunks.StrayChildHasParentIff` | vektra-index/src/vektra_index/providers/qdrant.py:235-261 | a child that a failed, uncompensated Qdrant call left behind shows in a search, and a fetch finds its containing parent exactly when the call wrote it too |
| `StrayChunks.StrayChildWithoutParent` | vektra-index/src/vektra_index/providers/qdrant.py:236-245 | a concrete first ingest that times out between child and parent: the row is cleaned up, a search returns the child, its parent is nowhere |
| `IngestBatch.ChunkDocument` | vektra-ingest/src/vektra_ingest/pipeline.py:341-359 | the configured strategy; parents are three chunk sizes long; an overlap not below the size is an error |
| `IngestBatch.BuildEmbeddings` | vektra-ingest/src/vektra_ingest/pipeline.py:398-432 | stored ids by position; a child's link is the stored id of the last parent with its chunker-local id, or none |
| `IngestBatch.StrategyLinksResolve` | vektra-ingest/src/vektra_ingest/pipeline.py:398-405 | for both strategies every child's parent is found by the remap and contains the child |
| `IngestBatch.IngestWrites` | vektra-ingest/src/vektra_ingest/pipeline.py:409-436 | the batch writes chunk i of the document at its ingest id, and nothing else |
| `IngestBatch.IngestHoldsChunk` | vektra-ingest/src/vektra_ingest/pipeline.py:398-436 | field by field: chunk i is stored with its text, the vector of that text, its level, its metadata under the document's own, and a parent link to a parent of the same local id exactly if it is a child |
| `IngestBatch.IngestedDocumentValid` | vektra-ingest/src/vektra_ingest/pipeline.py:398-436 | an ingested document has distinct positions and links that lead to containing parents |
| `IngestRun.EmbedChunks` | vektra-ingest/src/vektra_ingest/pipeline.py:370-396 | dense and optional sparse vectors, one per chunk, or the count mismatch error |
| `IngestRun.StoreContent` | vektra-ingest/src/vektra_ingest/pipeline.py:331-436 | which error extraction to store ends with, if any; a failure adds at most stray points of this document, and none without a timeout or failed compensation |
| `IngestRun.StartedValid` | vektra-ingest/src/vektra_ingest/pipeline.py:264-320 | with the old row soft-deleted the new one clashes with nothing |
| `IngestRun.RestoreAllowed` | vektra-ingest/src/vektra_ingest/pipeline.py:576-602 | the restore meets a standing index exactly when the failed successor is still live |
| `IngestRun.CompensationRestores` | vektra-ingest/src/vektra_ingest/pipeline.py:438-456 | the live rows are exactly the old ones if and only if both compensating updates that were needed went through |
| `Ingest.IngestPipeline.Compensate` | vektra-ingest/src/vektra_ingest/pipeline.py:545-602 | cleanup, then restore, each in its own transaction and each best effort |
| `Ingest.IngestPipeline.Process` | vektra-ingest/src/vektra_ingest/pipeline.py:285-436 | detection, the new row and its commit, then everything up to the store |
| `Ingest.IngestPipeline.Finish` | vektra-ingest/src/vektra_ingest/pipeline.py:464-510 | the old version's chunks go and the count is recorded, both best effort |
| `Ingest.IngestPipeline.Deduplicate` | vektra-ingest/src/vektra_ingest/pipeline.py:190-227 | a duplicate under its own filename, a known alias, or one more alias at the end of the list; which answer, which row, and the error if the alias cannot be recorded |
| `Ingest.IngestPipeline.ProcessOrUndo` | vektra-ingest/src/vektra_ingest/pipeline.py:285-542 | processing of a new version, finished or compensated: which error, which state, and exactly the tables committed on the way |
| `Ingest.IngestPipeline.Upload` | vektra-ingest/src/vektra_ingest/pipeline.py:238-542 | which error it ends with, if any; exactly the tables it commits; on success the whole new state, on failure the old one back exactly when compensation worked |
| `Ingest.IngestPipeline.RunIngest` | vektra-ingest/src/vektra_ingest/pipeline.py:130-542 | result or error and the whole new state. New content: succeeds exactly when no step fails; then the row is the next version of its name, superseding the row that held it, its history one longer, the answer says the same, and the store holds every chunk embedded; every committed table has that row. Known content: the answer of the one row that has it, and nothing else changes. Failure atomicity of live rows and of what a search sees; exactly when the collection is valid afterwards |
| `Ingest.IngestPipeline.IngestTwice` | vektra-ingest/src/vektra_ingest/pipeline.py:190-227 | repeating a successful ingest succeeds and changes nothing, whatever fails the second time |
| `Ingest.SucceedsIff` | vektra-ingest/src/vektra_ingest/pipeline.py:238-472 | an upload of new content succeeds exactly when no step fails, the type is supported, the configuration fits, there is text, and the providers answer with one vector per chunk |
| `Ingest.UploadRecordsVersion` | vektra-ingest/src/vektra_ingest/pipeline.py:250-320 | the new row: namespace, filename, hash, no aliases, version one above the row that held the name and superseding it, or version 1 and none; its history is that row's with itself in front; every other row is as it was |
| `Ingest.TablesRecordVersion` | vektra-ingest/src/vektra_ingest/pipeline.py:285-320 | every table an upload commits that has the new row has it so |
| `Ingest.UploadStoresContent` | vektra-ingest/src/vektra_ingest/pipeline.py:331-472 | the store then holds every chunk of the document and no other point of it, nothing of the superseded row if its delete went through, and all else as it was |
| `Ingest.KnownByHash` | vektra-ingest/src/vektra_ingest/pipeline.py:181-214 | content is known under a name exactly when its one live twin carries the name as filename or alias |
| `Ingest.FailureKeepsCollection` | vektra-ingest/src/vektra_ingest/pipeline.py:438-456 | after a failed ingest every ingested document is still valid, the new one exactly when its row is hidden or what the store holds of it is valid |
| `Ingest.SuccessKeepsCollection` | vektra-ingest/src/vektra_ingest/pipeline.py:434-472 | after a successful ingest every ingested document, the new one included, is valid |
| `Ingest.SupersededHidden` | vektra-ingest/src/vektra_ingest/pipeline.py:274-276 | a superseded chunk still shows in a search exactly on Qdrant with its hard delete failed |
| `DocumentDeletion.DeleteDocument` | vektra-index/src/vektra_index/api.py:388-424 | which points and which row a delete removes, each failure included; no row is deleted while chunks of it remain |
| `DocumentDeletion.DeletedMembers` | vektra-ingest/src/vektra_ingest/api.py:405-428 | a batch deletes exactly the live rows of its namespace among the requested ids, each once |
| `DocumentDeletion.ClearChunks` | vektra-ingest/src/vektra_ingest/api.py:434-449 | the cleanup removes exactly the chunks of deleted documents whose own delete went through |
| `DocumentDeletion.BatchDelete` | vektra-ingest/src/vektra_ingest/api.py:405-449 | exactly the live rows of the namespace among the ids are marked as deleted by the user, and whose chunks go; a deleted document's chunk still shows exactly on Qdrant with its delete failed |
| `SystemSteps.LiveDocumentIds` | vektra-index/src/vektra_index/reindex.py:243-251 | the job's snapshot: the live documents of the namespace, each once |
| `SystemSteps.SnapshotRunnable` | vektra-index/src/vektra_index/reindex.py:242-277 | in a valid collection every such snapshot meets what a reindex needs |
| `SystemSteps.ReindexAll` | vektra-index/src/vektra_index/reindex.py:179-458 | a job over all live documents: the points it leaves, and chunks_reindexed exactly if it completed; whatever of it fails, the system stays valid, every version but the target is as it was, and what it wrote is embedded anew, all of the snapshot if it completed |
| `SystemSteps.ReclaimVersion` | vektra-index/src/vektra_index/reindex.py:493-548 | a reclaim of a version not served removes and counts exactly it, or fails and changes nothing |
| `SystemSteps.NotedAgainstCopied` | docs/reference/api.md:1087-1102 | chunks_reindexed is at most the chunk_count noted before, and equal exactly when every counted chunk belongs to a live document of the namespace, so always on pgvector |
| `SystemSteps.SwitchServes` | docs/reference/api.md:942-944 | what a switch after a completed job serves: exact copies of its documents, of all others what the target held; and exactly when the new version is valid |
| `SystemSteps.SwitchOver` | docs/reference/api.md:1063-1113 | the documented procedure switches exactly when the job completed and the operator accepts its count against the noted one; otherwise the served version and all others but the target are as they were; after a switch, the exact points, every chunk of the job with the vector of its text, and what they serve |
| `SystemSteps.Perform` | vektra-index/src/vektra_index/reindex.py:9-15 | each operation does what its own contract says, and keeps the system valid, a switch if its version is |
| `StaleTargets.JobLeavesChild` | vektra-index/src/vektra_index/providers/qdrant.py:236-245 | a concrete job that times out between child and parent leaves the child's copy at the target without its parent's |
| `StaleTargets.LeftoverChildServed` | vektra-index/src/vektra_index/reindex.py:243-251 | the document then deleted, a second job completes without it, and after a switch a search returns the child, its parent nowhere |
| `Ledgers.CautiousIsSound` | vektra-index/src/vektra_index/reindex.py:9-15 | every valid state has a ledger that is right about it |
| `Ledgers.SoundVersionValid` | vektra-index/src/vektra_index/reindex.py:9-15 | a version the ledger shows in one piece is valid for every ingested document |
| `Ledgers.LedKeepsSound` | vektra-index/src/vektra_index/reindex.py:9-15 | every operation the ledger permits, whatever of it fails, leaves the noted ledger right about the collection |
| `SystemRuns.RunOperations` | docs/reference/api.md:938-944 | in any run of ingests, deletions, jobs, switches to versions the ledger shows in one piece, and reclaims, at every moment the indexes, the version links and every child's parent hold, and each operation did what its own contract says |
| `SystemRuns.StaysServed` | docs/reference/api.md:940-942 | a version of a namespace holds the same as long as no operation writes to it |
| `SystemRuns.CompletedJobServes` | docs/reference/api.md:1087-1113 | in any run, once a job completed into a version free of ingests and in one piece, the version lists each live document of its snapshot as its exact relabelled copy, each chunk with the vector of its text, until the next write to it: at the switch, and after the old version is reclaimed |
| `Conversations.InMemoryConversationStore.AddTurn` | vektra-core/src/vektra_core/conversation.py:76-94 | appends and trims to the newest max_turns |
| `Conversations.InMemoryConversationStore.Clear` | vektra-core/src/vektra_core/conversation.py:96-99 | forgets one conversation and no other |
| `Conversations.CreateInMemoryStore` | vektra-core/src/vektra_core/conversation.py:63-68 | refuses exactly a max_turns below one |
| `Conversations.NumbersGapless` | vektra-core/src/vektra_core/conversation.py:249-282 | stored turn numbers are unique, increasing and gapless up to the turn count |
| `Conversations.CommitKeepsWindow` | vektra-core/src/vektra_core/conversation.py:249-284 | insert, count and prune together keep exactly the newest max_turns rows |
| `Conversations.OnlyItsKeyOpens` | vektra-core/src/vektra_core/conversation.py:203-262 | a stored turn reads back as it was under its own key and not at all under any other |
| `Conversations.PersistentConversationStore.EnsureConversation` | vektra-core/src/vektra_core/conversation.py:161-185 | a missing row is created live, with turn count 0 and no turns; an existing one is left as it is |
| `Conversations.PersistentConversationStore.LockRow` | vektra-core/src/vektra_core/conversation.py:230-249 | takes the row lock and the next number, waits for it, or drops the turn of a missing or deleted conversation |
| `Conversations.PersistentConversationStore.InsertRow` | vektra-core/src/vektra_core/conversation.py:251-262 | the unique constraint on turn numbers never fires under the lock |
| `Conversations.PersistentConversationStore.CommitTurn` | vektra-core/src/vektra_core/conversation.py:264-284 | the turn becomes the newest one and the lock is released |
| `Conversations.PersistentConversationStore.AbortTurn` | vektra-core/src/vektra_core/conversation.py:229-284 | a rollback leaves nothing behind but a free lock |
| `Conversations.PersistentConversationStore.AddTurn` | vektra-core/src/vektra_core/conversation.py:220-284 | the whole call on its own: one turn more on a live conversation, nothing otherwise |
| `Conversations.PersistentConversationStore.FetchTurns` | vektra-core/src/vektra_core/conversation.py:203-218 | at any moment of any interleaving, the newest max_turns committed turns, decrypted and in order |
| `Conversations.PersistentConversationStore.GetHistory` | vektra-core/src/vektra_core/conversation.py:187-218 | the same for a live conversation, empty for a missing or soft-deleted one |
| `Conversations.PersistentConversationStore.MarkDeleted` | vektra-core/src/vektra_core/conversation.py:382-405 | waits for the row lock, then the conversation is not live; turns stay |
| `Conversations.PersistentConversationStore.ClearConversation` | vektra-core/src/vektra_core/conversation.py:286-291 | waits for the row lock, then removes conversation and turns |
| `Conversations.PersistentConversationStore.Run` | vektra-core/src/vektra_core/conversation.py:187-291 | any interleaving follows the protocol statement by statement; the history of a live conversation equals the in-memory store's fed the same turns in commit order, which is empty otherwise; when it is live, `Conversations.LiveIff` says |
| `Conversations.LiveIff` | vektra-core/src/vektra_core/conversation.py:161-291 | from a store without the row: live exactly when one of the creations made the row and no clear or soft deletion took effect since |
| `Conversations.ExistsIff` | vektra-core/src/vektra_core/conversation.py:161-291 | the row exists exactly when some creation was not cleared since |
| `Conversations.HeldSince` | vektra-core/src/vektra_core/conversation.py:229-284 | a clear or soft deletion that has to wait does so for a transaction that took the row lock and was not rolled back since |
| `Conversations.Converse` | vektra-core/src/vektra_core/conversation.py:161-284 | a new store, ensure and any number of undisturbed turns: the history is the last max_turns of them |
| `RateLimits.RateLimiter.Check` | vektra-admin/src/vektra_admin/rate_limit.py:30-88 | the evicting window answers as a log that forgets nothing: let through exactly when fewer than the limit lie in the last 60 seconds, with the number left and the second at which the oldest of them is a minute old |
| `RateLimits.RateLimiter.Cleanup` | vektra-admin/src/vektra_admin/rate_limit.py:90-101 | drops exactly the windows without a request in the last 60 seconds and changes no later answer |
| `RateLimits.SinceCounts` | vektra-admin/src/vektra_admin/rate_limit.py:52-56 | the evicted window is as long as the number of requests in the last closed minute |
| `RateLimits.SinceIsTheEnd` | vektra-admin/src/vektra_admin/rate_limit.py:52-56 | eviction leaves the end of the log from the first entry within the window on |
| `RateLimits.WindowAnswers` | vektra-admin/src/vektra_admin/rate_limit.py:52-84 | what the evicted window says of admission, requests left and reset time is what the positions of the log in the last 60 seconds say |
| `RateLimits.TruncateIsTowardZero` | vektra-admin/src/vektra_admin/rate_limit.py:59-66 | the reset time of the headers is cut to whole seconds toward zero |
| `RateLimits.AtMostLimitPerMinute` | vektra-admin/src/vektra_admin/rate_limit.py:74-84 | if every request was accepted with fewer than the limit in the minute before it, no closed minute holds more than the limit |
| `RateLimits.RunLimited` | vektra-admin/src/vektra_admin/rate_limit.py:30-101 | in any run of requests and cleanups over any keys every answer is the one the unbounded log gives |
| `RateLimits.NeverOverLimit` | vektra-admin/src/vektra_admin/rate_limit.py:1-8 | under a fixed limit no closed 60 seconds ever hold more accepted requests of a key than that |
| `KeyStores.InMemoryKeyStore.LookupByToken` | vektra-admin/src/vektra_admin/keystore.py:61-89 | finds a token exactly if a key made from it is neither revoked nor expired, and answers with that key's id, scopes and limit; the preview index never hides one |
| `KeyStores.InMemoryKeyStore.ScanIsUnique` | vektra-admin/src/vektra_admin/keystore.py:61-89 | a scan has at most one answer |
| `KeyStores.InMemoryKeyStore.AddKey` | vektra-admin/src/vektra_admin/keystore.py:95-116 | one entry more, the preview index in step |
| `KeyStores.InMemoryKeyStore.RevokeKey` | vektra-admin/src/vektra_admin/keystore.py:118-123 | the entry is marked and its token finds nothing at any later moment |
| `KeyStores.InMemoryKeyStore.RevokeKeyById` | vektra-admin/src/vektra_admin/keystore.py:125-131 | exactly the entry with the id is marked |
| `KeyStores.InMemoryKeyStore.LoadFromDb` | vektra-admin/src/vektra_admin/keystore.py:137-174 | every row neither revoked nor expired is cached field by field and counted; nothing else is added, nothing dropped |
| `KeyStores.LoadedKnows` | vektra-admin/src/vektra_admin/keystore.py:148-171 | after a load a hash is known exactly if it was before or a usable row carries it |
| `KeyStores.LoadedRows` | vektra-admin/src/vektra_admin/keystore.py:137-174 | what a load leaves, row by row: usable rows with their own fields, every earlier entry not reloaded as it was |
| `Bootstrap.KeyService.AuthenticateRequest` | vektra-admin/src/vektra_admin/api.py:292-330 | the bootstrap token waits for the row lock, is refused if the flag row is missing or set, else takes the lock; an admin key passes; other keys are forbidden, other tokens unauthorized |
| `Bootstrap.KeyService.ValidateRequest` | vektra-admin/src/vektra_admin/api.py:332-353 | passes exactly if the scopes given are among admin, ingest and query and the expiry given is after now; otherwise 422, and the lock is free again |
| `Bootstrap.KeyService.CommitKey` | vektra-admin/src/vektra_admin/api.py:355-371 | the key row, with its creator, scopes and expiry, and the flag become visible together; a taken id commits nothing |
| `Bootstrap.KeyService.CacheKey` | vektra-admin/src/vektra_admin/api.py:373-385 | only committed keys reach the cache |
| `Bootstrap.KeyService.CreateApiKey` | vektra-admin/src/vektra_admin/api.py:271-412 | exactly which of the four answers one undisturbed request gets, by token, flag, scopes and expiry; the key is committed and cached exactly on success, else nothing changes |
| `Bootstrap.KeyService.Run` | vektra-admin/src/vektra_admin/bootstrap.py:40-93 | any interleaving follows the protocol statement by statement; at most one key is ever committed through the bootstrap token, and the flag is true exactly when it exists |
| `Bootstrap.CommittedKeyIsValid` | vektra-admin/src/vektra_admin/api.py:332-371 | in any interleaving every committed key was written for a request that arrived with the bootstrap token or an admin key and passed validation; it has that request's scopes, known ones, and expiry, then in the future |
| `Budget.GreedyIsGreatest` | vektra-core/src/vektra_core/budget.py:52-58 | the chunk selection is the lexicographically greatest that fits, in score order |
| `Budget.GreedyIsTheOnlyGreatest` | vektra-core/src/vektra_core/budget.py:52-58 | it is the only selection that fits and comes first among all that fit |
| `Budget.LeftOutDoesNotFit` | vektra-core/src/vektra_core/budget.py:52-58 | no chunk left out still fits its share |
| `Budget.GreedyNewestIsGreatest` | vektra-core/src/vektra_core/budget.py:60-68 | the history selection is the greatest that fits, compared from the newest turn back |
| `Budget.LeftOutOfHistory` | vektra-core/src/vektra_core/budget.py:60-68 | no turn left out still fits its share |
| `Budget.IndicesExact` | vektra-core/src/vektra_core/budget.py:42-45 | the returned indices are exactly the selected ones, ascending |
| `Budget.AllocateTokenBudget` | vektra-core/src/vektra_core/budget.py:15-70 | the ratio error, both selections within what the fixed cost leaves, the chunk share rounded down, and that everything together fits the window when the fixed cost does |
| `RetrievalFilters.ApplyRetrievalFilter` | vektra-core/src/vektra_core/pipeline.py:142-191 | the loops compute threshold, rescue, stable sort and deduplication; rescued counts the hits at or above the floor, up to rescue_top, when no hit reaches the threshold |
| `RetrievalFilters.FilterIsMaximal` | vektra-core/src/vektra_core/pipeline.py:158-191 | sorted, no two sharing more than 0.8 of the smaller word set, and every candidate left out shares more with a kept one of at least its score |
| `RetrievalFilters.FilterIsIdempotent` | vektra-core/src/vektra_core/pipeline.py:142-191 | filtering the result again, rescue included, returns it |
| `RetrievalFilters.CandidatesFacts` | vektra-core/src/vektra_core/pipeline.py:167-176 | exactly the hits at or above the threshold or, if none is and a rescue is asked for, the best rescue_top at or above the floor: sorted, as many as there are, none left out above one taken |
| `RetrievalFilters.AtLeastHitByHit` | vektra-core/src/vektra_core/pipeline.py:167-168 | each hit is kept or dropped on its own score, in the order of the hits |
| `RetrievalFilters.NearDuplicateSymmetric` | vektra-core/src/vektra_core/pipeline.py:133-139 | overlap does not depend on the order of the two texts |
| `RetrievalFilters.NearDuplicateIff` | vektra-core/src/vektra_core/pipeline.py:133-139 | near-duplicates are exactly the pairs whose shared words exceed 0.8 of the smaller word set |
| `RankFusion.SearchHybrid` | vektra-index/src/vektra_index/providers/pgvector.py:276-345 | min(2 * top_k, 100) hits are fetched of each list and fused: each result is a hit of the dense list, or else of the sparse one, with score 1 / (60 + rank) summed over both, one past the fetched for a missing rank; the dense ranking alone without a sparse query |
| `RankFusion.FusionFacts` | vektra-index/src/vektra_index/providers/pgvector.py:314-345 | min(top_k, size of the union) distinct chunks, sorted, and no omitted one scores above a returned one |
| `RankFusion.BetterRankedComesFirst` | vektra-index/src/vektra_index/providers/pgvector.py:322-332 | a chunk ranked no worse in both lists and better in one stands before the other |
| `RankFusion.FusedScoreRange` | vektra-index/src/vektra_index/providers/pgvector.py:325-329 | every fused score lies in (0, 2/61], at the top only for the first of both lists |
| `ParentExpansion.ExpandParents` | vektra-core/src/vektra_core/advanced_pipeline.py:442-490 | both early returns, otherwise the expansion with all its counters: output plus merged siblings is the input, and every parent fetched is expanded once |
| `ParentExpansion.ExpandedIsSubsequence` | vektra-core/src/vektra_core/advanced_pipeline.py:472-483 | the output is the input at ascending positions with only texts changed; the positions left out are the later siblings |
| `ParentExpansion.ParentShownOnce` | vektra-core/src/vektra_core/advanced_pipeline.py:449-453 | each fetched parent appears once, through its first and, in descending input, best child |
| `ParentExpansion.ExpansionIsIdempotent` | vektra-core/src/vektra_core/advanced_pipeline.py:455-483 | expanding an expanded list, its parents fetched anew, changes nothing |
| `ParentExpansion.ExpansionCoversHits` | vektra-core/src/vektra_core/advanced_pipeline.py:442-483 | over a valid collection every hit on a child finds its parent, and every result shows a text containing the text found |

## Left out

- SystemRuns.RunOperations: leaves out ingests that both leave stray Qdrant points and fail to clean up their row, after which Ingest.IngestPipeline.RunIngest says exactly when the system is valid; and switches to a version that a failed Qdrant job may have left in pieces and no reclaim cleared, for which ChunkLinks.CompletedTargetValid and StaleTargets.LeftoverChildServed say what can happen.
- Ledgers.Noted: counts a version as in pieces after any job whose Qdrant store calls can leave points behind, also where a second job repaired it (ReindexLifecycle.RerunReindex).
- Concurrent ingests of one filename and the conflict error they raise; ingests and deletions while a reindex runs.
- Random chunk ids: a chunk without an id gets a random one in the stores, which neither ingest nor reindex relies on.
- The foreign key from chunks to documents, which pgvector checks on insert.
- Row ids of documents are new by assumption, as random ids are; namespaces are created on demand without a model.
- Extra metadata that redefines chunk_level, and chunk sizes or overlaps below zero.
- Branches no caller can reach: a store that returns fewer ids than chunks, an unknown element type.
- Progress callbacks, events, audit entries and log lines.
- How tokenizers, embedders, extractors and rankings compute; they are parameters.
- The dense and sparse search of each provider; Qdrant's server-side fusion.
- Conversation titles, metadata, owners and response ids; the conversation row's 32-bit turn number.
- One conversation at a time in the persistent store: rows of different conversations share no lock, number or query.
- The time-limited cache of argon2 verifications, which only repeats positive answers; key cache entries are values in a map, not shared objects.
- Rounding of floating-point scores, ratios and times.
- Order among equal positions in a listing; the model allows any.
