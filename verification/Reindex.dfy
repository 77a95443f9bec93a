/**
 * The reindex job: for each document of a snapshot, read its chunks at the active version,
 * re-embed them and store them beside the originals under the target version.
 *
 * Every awaited call is one atomic step that may fail; `states` records the collection after
 * each step that can change it.
 */
module Reindex {
  import opened Support
  import opened ChunkIds
  import opened VectorStores
  import opened ChunkCopies
  import opened Embedding

  datatype JobStatus = Pending | Running | Completed | Failed

  datatype ReindexError =
    | TargetConflict | DatabaseFailed | ProviderMissing | WrongSourceVersion
    | ListFailed | EmbeddingFailed | EmbeddingCountMismatch | StoreRejected(error: StoreError) | NothingStored

  datatype DocumentFault = DocumentFault(listFails: bool, embedding: EmbedFault, store: StoreFault, progressFails: bool)

  /** Which steps of a run fail. Documents beyond the list meet no fault. */
  datatype Faults = Faults(setupFails: bool, providerMissing: bool, documents: seq<DocumentFault>,
                           completionFails: bool, reportFails: bool)

  const SMOOTH := DocumentFault(false, Embeds, NoFault, false)

  const NO_FAULTS := Faults(false, false, [], false, false)

  function FaultAt(faults: Faults, i: nat): DocumentFault {
    if i < |faults.documents| then faults.documents[i] else SMOOTH
  }

  class ReindexJob {
    const namespace: string
    const source: nat
    const target: nat
    var status: JobStatus
    var totalDocuments: nat
    var processedDocuments: nat
    var chunksReindexed: nat
    var error: Option<ReindexError>

    constructor (namespace: string, source: nat, target: nat)
      ensures this.namespace == namespace && this.source == source && this.target == target && status == Pending
      ensures totalDocuments == processedDocuments == chunksReindexed == 0 && error == None
    {
      this.namespace := namespace;
      this.source := source;
      this.target := target;
      status := Pending;
      totalDocuments, processedDocuments, chunksReindexed := 0, 0, 0;
      error := None;
    }
  }

  /** The endpoint: a target equal to the version being served is refused before any job exists. */
  method TriggerReindex(namespace: string, target: nat, active: nat) returns (r: Result<ReindexJob, ReindexError>)
    ensures r.Err? <==> target == active
    ensures r.Err? ==> r.error == TargetConflict
    ensures r.Ok? ==>
      fresh(r.value) && r.value.namespace == namespace && r.value.source == active && r.value.target == target
                      && r.value.status == Pending && r.value.error == None
                      && r.value.totalDocuments == r.value.processedDocuments == r.value.chunksReindexed == 0
  {
    if target == active {
      return Err(TargetConflict);
    }
    var job := new ReindexJob(namespace, active, target);
    return Ok(job);
  }

  // ---- One document ----

  /** The remapped chunk a listed chunk becomes. */
  function Remapped(document: DocumentId, c: StoredChunk, dense: Vector, idMap: map<ChunkId, ChunkId>): ChunkEmbedding
    requires c.id in idMap
  {
    ChunkEmbedding(idMap[c.id], document, c.position, c.text, dense, c.sparse, c.level, c.metadata,
                   if c.parent.Some? && c.parent.value in idMap then Some(idMap[c.parent.value]) else None)
  }

  ghost predicate IsIdMap(idMap: map<ChunkId, ChunkId>, listing: seq<StoredChunk>, document: DocumentId, target: nat) {
    && (forall id :: id in idMap <==> exists c :: c in listing && c.id == id)
    && forall c | c in listing :: c.id in idMap && idMap[c.id] == TargetChunkId(document, c.position, target)
  }

  /** Old id to new id, for every listed chunk. */
  method BuildIdMap(listing: seq<StoredChunk>, document: DocumentId, target: nat) returns (idMap: map<ChunkId, ChunkId>)
    requires forall i, j | 0 <= i < j < |listing| :: listing[i].id != listing[j].id
    ensures IsIdMap(idMap, listing, document, target)
  {
    idMap := map[];
    for n := 0 to |listing|
      invariant forall id :: id in idMap <==> exists i :: 0 <= i < n && listing[i].id == id
      invariant forall i | 0 <= i < n ::
        listing[i].id in idMap && idMap[listing[i].id] == TargetChunkId(document, listing[i].position, target)
    {
      idMap := idMap[listing[n].id := TargetChunkId(document, listing[n].position, target)];
    }
    forall id ensures id in idMap <==> exists c :: c in listing && c.id == id {
      if id in idMap {
        var i :| 0 <= i < |listing| && listing[i].id == id;
        assert listing[i] in listing;
      }
    }
  }

  /** The embeddings of a listing, ids and parent links passed through the id map. */
  method BuildCopies(listing: seq<StoredChunk>, document: DocumentId, vectors: seq<Vector>, idMap: map<ChunkId,
      ChunkId>) returns (chunks: seq<ChunkEmbedding>)
    requires |vectors| == |listing| && forall i | 0 <= i < |listing| :: listing[i].id in idMap
    ensures |chunks| == |listing|
    ensures forall i | 0 <= i < |listing| :: chunks[i] == Remapped(document, listing[i], vectors[i], idMap)
  {
    chunks := [];
    for n := 0 to |listing|
      invariant |chunks| == n
      invariant forall i | 0 <= i < n :: chunks[i] == Remapped(document, listing[i], vectors[i], idMap)
    {
      chunks := chunks + [Remapped(document, listing[n], vectors[n], idMap)];
    }
  }

  lemma {:induction false} RemappedIsCopy(points: Points, namespace: string, document: DocumentId, source: nat,
      target: nat, embed: Embedder, listing: seq<StoredChunk>, idMap: map<ChunkId, ChunkId>, c: StoredChunk)
    requires IsListing(listing, points, namespace, document, source) && c in listing
    requires IsIdMap(idMap, listing, document, target)
    ensures c.id in idMap && c.id in points && idMap[c.id] == TargetChunkId(document, points[c.id].position, target)
    ensures PointOf(namespace, target, Remapped(document, c, embed(c.text), idMap))
         == CopyOf(points, namespace, document, source, target, embed, points[c.id])
  {
    if c.parent.Some? {
      var q := c.parent.value;
      if q in Matching(points, namespace, document, source) {
        assert StoredAs(q, points[q]) in listing;
      }
      if q in idMap {
        var d :| d in listing && d.id == q;
        assert points[q].position == d.position;
      }
    }
  }

  lemma {:induction false} WrittenEquals(batch: seq<Entry>, m: Points)
    requires forall i | 0 <= i < |batch| :: batch[i].0 in m && batch[i].1 == m[batch[i].0]
    requires forall id | id in m :: exists i :: 0 <= i < |batch| && batch[i].0 == id
    ensures Written(batch) == m
  {
    forall id ensures (id in Written(batch) <==> id in m) && (id in m ==> Written(batch)[id] == m[id]) {
      WrittenAt(batch, id);
    }
  }

  /** The batch built from a listing writes exactly the document's copies, each once. */
  lemma {:induction false} BatchIsCopies(points: Points, namespace: string, document: DocumentId, source: nat,
      target: nat, embed: Embedder, listing: seq<StoredChunk>, batch: seq<Entry>)
    requires DistinctPositions(points, namespace, document, source)
    requires IsListing(listing, points, namespace, document, source)
    requires |batch| == |listing|
    requires forall i | 0 <= i < |listing| ::
      (listing[i].id in points
       && batch[i] == (TargetChunkId(document, points[listing[i].id].position, target),
                       CopyOf(points, namespace, document, source, target, embed, points[listing[i].id])))
    ensures Written(batch) == Copies(points, namespace, document, source, target, embed)
    ensures OneDocument(batch)
    ensures forall i, j | 0 <= i < j < |batch| :: batch[i].0 != batch[j].0
  {
    var copies := Copies(points, namespace, document, source, target, embed);
    StrictListing(listing, points, namespace, document, source);
    forall i | 0 <= i < |batch|
      ensures batch[i].0 in copies && batch[i].1 == copies[batch[i].0]
      ensures batch[i].0 == TargetChunkId(document, listing[i].position, target) && batch[i].1.document == document
    {
      assert listing[i] in listing;
      CopyIn(points, namespace, document, source, target, embed, listing[i].id);
    }
    forall i, j | 0 <= i < j < |batch| ensures batch[i].0 != batch[j].0 {
      var p, q := listing[i].position, listing[j].position;
      assert p < q;
      assert batch[i].0 == TargetChunkId(document, p, target) && batch[j].0 == TargetChunkId(document, q, target);
    }
    forall id | id in copies ensures exists i :: 0 <= i < |batch| && batch[i].0 == id {
      var x := OriginalOf(points, namespace, document, source, target, embed, id);
      assert StoredAs(x, points[x]) in listing;
      var i :| 0 <= i < |listing| && listing[i] == StoredAs(x, points[x]);
      assert batch[i].0 == id;
    }
    WrittenEquals(batch, copies);
  }

  lemma {:induction false} ListedIds(points: Points, namespace: string, document: DocumentId, version: nat,
      listing: seq<StoredChunk>)
    requires IsListing(listing, points, namespace, document, version)
    ensures forall i, j | 0 <= i < j < |listing| :: listing[i].id != listing[j].id
    ensures |listing| == |Matching(points, namespace, document, version)|
  {
    forall i, j | 0 <= i < j < |listing| ensures listing[i].id != listing[j].id {
      assert listing[i] in listing && listing[j] in listing;
    }
    var ids := seq(|listing|, i requires 0 <= i < |listing| => listing[i].id);
    DistinctLength(ids);
    forall id ensures id in ids <==> id in Matching(points, namespace, document, version) {
      if id in ids {
        var i :| 0 <= i < |ids| && ids[i] == id;
        assert listing[i] in listing;
      }
      if id in Matching(points, namespace, document, version) {
        assert StoredAs(id, points[id]) in listing;
        var i :| 0 <= i < |listing| && listing[i] == StoredAs(id, points[id]);
        assert ids[i] == id;
      }
    }
    assert (set id | id in ids) == Matching(points, namespace, document, version);
  }

  /**
   * Why a document's step fails, None when it succeeds: decided by the faults and, on pgvector, by ids
   * already taken.
   */
  ghost function DocumentProblem(backend: Backend, points: Points, count: nat, copies: Points,
      fault: DocumentFault): Option<ReindexError> {
    if fault.listFails then Some(ListFailed)
    else if count == 0 then None
    else if fault.embedding.EmbedRaises? then Some(EmbeddingFailed)
    else if fault.embedding.Returns? && fault.embedding.count != count then Some(EmbeddingCountMismatch)
    else if backend.Pgvector? && !(copies.Keys !! points.Keys) then Some(StoreRejected(DuplicateKey))
    else if fault.store != NoFault then Some(StoreRejected(StoreFailed))
    else None
  }

  /** What a document's step leaves in the collection. */
  ghost function DocumentLeaves(backend: Backend, points: Points, count: nat, copies: Points,
        fault: DocumentFault): Points {
    var problem := DocumentProblem(backend, points, count, copies, fault);
    if problem == None then (if count == 0 then points else points + copies)
    else if problem != Some(StoreRejected(StoreFailed)) || backend.Pgvector? then points
    else match fault.store
      case NoFault => points
      case TimedOut(applied) => points + Keep(copies, applied)
      case Rejected(applied, cleanupFails) =>
        if cleanupFails then points + Keep(copies, applied) else points - copies.Keys
  }

  function Outcome(problem: Option<ReindexError>, count: nat): Result<nat, ReindexError> {
    if problem.Some? then Err(problem.value) else Ok(count)
  }

  // ---- States between the steps ----

  lemma {:induction false} StoreLeavesReindexState(backend: Backend, points: Points, batch: seq<Entry>,
      fault: StoreFault)
    ensures ReindexState(points, AfterStore(backend, points, batch, fault), Written(batch))
  {
  }

  lemma {:induction false} StatesCompose(before: Points, mid: Points, now: Points, all: Points, copies: Points)
    requires ReindexState(before, mid, all) && ReindexState(mid, now, copies)
    requires forall id | id in copies :: id in all && all[id] == copies[id]
    ensures ReindexState(before, now, all)
  {
    forall id | id !in copies ensures (id in mid <==> id in now) && (id in mid ==> mid[id] == now[id]) {
      AgreeAt(mid, now, copies.Keys, id);
    }
    assert mid - all.Keys == now - all.Keys;
  }

  /** A state of the run is as well named as the collection it started from. */
  lemma {:induction false} StateWellNamed(before: Points, now: Points, namespace: string, documents: seq<DocumentId>,
      source: nat, target: nat, embed: Embedder)
    requires WellNamed(before) && AllDistinct(before, namespace, documents, source)
    requires ReindexState(before, now, AllCopies(before, namespace, documents, source, target, embed))
    ensures WellNamed(now)
  {
    var all := AllCopies(before, namespace, documents, source, target, embed);
    forall id | id in now ensures WellNamedPoint(id, now[id]) {
      if id in all {
        AllCopiesAt(before, namespace, documents, source, target, embed, id);
      } else {
        AgreeAt(before, now, all.Keys, id);
      }
    }
  }

  lemma {:induction false} BatchCollides(points: Points, batch: seq<Entry>)
    requires forall i, j | 0 <= i < j < |batch| :: batch[i].0 != batch[j].0
    ensures Collides(points, batch) <==> !(Written(batch).Keys !! points.Keys)
  {
    if Collides(points, batch) {
      var i :| 0 <= i < |batch| && (batch[i].0 in points || exists j | 0 <= j < i :: batch[j].0 == batch[i].0);
      WrittenAt(batch, batch[i].0);
      assert batch[i].0 in Written(batch) && batch[i].0 in points;
    }
    if !(Written(batch).Keys !! points.Keys) {
      var id :| id in Written(batch) && id in points;
      WrittenAt(batch, id);
    }
  }

  /** For a batch of one document with distinct ids, only taken ids and faults can stop a store. */
  lemma {:induction false} StoreProblemIs(backend: Backend, points: Points, batch: seq<Entry>, fault: StoreFault)
    requires batch != [] && OneDocument(batch) && forall i, j | 0 <= i < j < |batch| :: batch[i].0 != batch[j].0
    ensures StoreProblem(backend, points, batch, fault)
         == if backend.Pgvector? && !(Written(batch).Keys !! points.Keys) then Some(DuplicateKey)
            else if fault != NoFault then Some(StoreFailed) else None
  {
    BatchCollides(points, batch);
  }

  /** What a failed or successful store of those copies leaves is what the step leaves. */
  lemma {:induction false} StoreLeaves(backend: Backend, points: Points, batch: seq<Entry>, count: nat,
        fault: DocumentFault)
    requires batch != [] && OneDocument(batch) && forall i, j | 0 <= i < j < |batch| :: batch[i].0 != batch[j].0
    requires count > 0 && !fault.listFails && Answers(fault.embedding, count)
    ensures AfterStore(backend, points, batch, fault.store)
         == DocumentLeaves(backend, points, count, Written(batch), fault)
  {
    StoreProblemIs(backend, points, batch, fault.store);
  }

  /** The remapped chunks of a listing are, once written, the document's copies. */
  method PrepareCopies(ghost points: Points, namespace: string, document: DocumentId, ghost source: nat, target: nat,
      ghost embed: Embedder, listing: seq<StoredChunk>, vectors: seq<Vector>) returns (chunks: seq<ChunkEmbedding>)
    requires DistinctPositions(points, namespace, document, source)
    requires IsListing(listing, points, namespace, document, source)
    requires |vectors| == |listing| && forall i | 0 <= i < |listing| :: vectors[i] == embed(listing[i].text)
    ensures |chunks| == |listing|
    ensures Written(Batch(namespace, target, chunks)) == Copies(points, namespace, document, source, target, embed)
    ensures OneDocument(Batch(namespace, target, chunks))
    ensures forall i, j | 0 <= i < j < |chunks| ::
      Batch(namespace, target, chunks)[i].0 != Batch(namespace, target, chunks)[j].0
  {
    ListedIds(points, namespace, document, source, listing);
    var idMap := BuildIdMap(listing, document, target);
    assert forall i | 0 <= i < |listing| :: listing[i] in listing && listing[i].id in idMap;
    chunks := BuildCopies(listing, document, vectors, idMap);
    ghost var batch := Batch(namespace, target, chunks);
    forall i | 0 <= i < |listing|
      ensures listing[i].id in points
      ensures batch[i] == (TargetChunkId(document, points[listing[i].id].position, target),
                           CopyOf(points, namespace, document, source, target, embed, points[listing[i].id]))
    {
      assert listing[i] in listing;
      RemappedIsCopy(points, namespace, document, source, target, embed, listing, idMap, listing[i]);
    }
    BatchIsCopies(points, namespace, document, source, target, embed, listing, batch);
  }

  /** The second half of a document's step, for a document that has chunks. */
  method EmbedAndStore(store: VectorStore, namespace: string, document: DocumentId, target: nat, embed: Embedder,
      listing: seq<StoredChunk>, fault: DocumentFault)
    returns (r: Result<nat, ReindexError>)
    requires store.Valid() && WellNamed(store.points) && listing != [] && !fault.listFails
    requires DistinctPositions(store.points, namespace, document, store.active)
    requires IsListing(listing, store.points, namespace, document, store.active)
    modifies store`points, store`order
    ensures store.Valid()
    ensures var before := old(store.points);
      var copies := Copies(before, namespace, document, store.active, target, embed);
      && ReindexState(before, store.points, copies)
      && r == Outcome(DocumentProblem(store.backend, before, |listing|, copies, fault), |listing|)
      && store.points == DocumentLeaves(store.backend, before, |listing|, copies, fault)
  {
    ghost var before, source := store.points, store.active;
    var texts := seq(|listing|, i requires 0 <= i < |listing| => listing[i].text);
    var vectors := EmbedDocuments(texts, embed, Vector([]), fault.embedding);
    if vectors.None? {
      return Err(EmbeddingFailed);
    }
    if |vectors.value| != |texts| {
      return Err(EmbeddingCountMismatch);
    }
    var chunks := PrepareCopies(before, namespace, document, source, target, embed, listing, vectors.value);
    ghost var batch := Batch(namespace, target, chunks);
    StoreLeavesReindexState(store.backend, before, batch, fault.store);
    StoreProblemIs(store.backend, before, batch, fault.store);
    StoreLeaves(store.backend, before, batch, |listing|, fault);
    var stored := store.Store(namespace, chunks, Some(target), fault.store);
    if stored.Err? {
      return Err(StoreRejected(stored.error));
    }
    return Ok(|stored.value|);
  }

  /** One document: list, then embed, remap and store what was listed. */
  method ReindexDocument(store: VectorStore, namespace: string, document: DocumentId, target: nat, embed: Embedder,
      fault: DocumentFault)
    returns (r: Result<nat, ReindexError>)
    requires store.Valid() && WellNamed(store.points)
    requires DistinctPositions(store.points, namespace, document, store.active)
    modifies store`points, store`order
    ensures store.Valid()
    ensures var before := old(store.points);
      var copies := Copies(before, namespace, document, store.active, target, embed);
      var count := |Matching(before, namespace, document, store.active)|;
      && ReindexState(before, store.points, copies)
      && r == Outcome(DocumentProblem(store.backend, before, count, copies, fault), count)
      && store.points == DocumentLeaves(store.backend, before, count, copies, fault)
  {
    ghost var copies := Copies(store.points, namespace, document, store.active, target, embed);
    if fault.listFails {
      return Err(ListFailed);
    }
    var listing := store.ListChunks(namespace, document);
    ListedIds(store.points, namespace, document, store.active, listing);
    if listing == [] {
      CopiesSize(store.points, namespace, document, store.active, target, embed);
      assert copies == map[];
      return Ok(0);
    }
    r := EmbedAndStore(store, namespace, document, target, embed, listing, fault);
  }
}
