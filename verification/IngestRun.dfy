/**
 * One ingest from upload to search: deduplication, versioning, the steps that may fail, and the
 * compensation that undoes them. Ingests run one after another; each awaited step may fail.
 */
module IngestRun {
  import opened Support
  import opened ChunkIds
  import opened Chunking
  import opened VectorStores
  import opened Embedding
  import opened DocumentTable
  import opened ChunkLinks
  import opened IngestBatch

  /** An upload: its digest, whether an extractor supports it, and what the extractor yields. */
  datatype Content = Content(hash: string, supported: bool, elements: seq<Element>)

  datatype IngestFaults = IngestFaults(
    aliasFails: bool, supersedeFails: bool, detectFails: bool, insertFails: bool, commitFails: bool,
    extractFails: bool, embedding: EmbedFault, sparse: EmbedFault, store: StoreFault,
    cleanupFails: bool, restoreFails: bool, oldDeleteFails: bool, countFails: bool)

  datatype IngestResult =
    | New(document: DocumentId, chunkCount: nat, version: nat, supersedes: Option<DocumentId>)
    | Exists(document: DocumentId, version: nat, supersedes: Option<DocumentId>)
    | Alias(document: DocumentId, aliasCount: nat, version: nat, supersedes: Option<DocumentId>)

  datatype IngestError = DatabaseFailed | StorageFailed | UnsupportedType | NoText | CountMismatch

  /** The processing configuration of a deployment. */
  datatype Processing = Processing(strategy: Strategy, decodes: Text -> bool, embed: Text -> Vector,
                                   sparse: Option<Text -> SparseVector>)

  /** What comes of asking a provider for n vectors. */
  function EmbedProblem(fault: EmbedFault, n: nat): Option<IngestError> {
    if fault.EmbedRaises? then Some(StorageFailed) else if Answers(fault, n) then None else Some(CountMismatch)
  }

  /** The first thing that goes wrong from extraction to the store. */
  function ContentProblem(p: Processing, content: Content, faults: IngestFaults): Option<IngestError> {
    if faults.extractFails then Some(StorageFailed)
    else match ChunksOf(p.strategy, content.elements, p.decodes)
      case Err(_) => Some(StorageFailed)
      case Ok(chunks) =>
        var dense := EmbedProblem(faults.embedding, |chunks|);
        if chunks == [] then Some(NoText)
        else if dense.Some? then dense
        else if p.sparse.Some? && EmbedProblem(faults.sparse, |chunks|).Some? then EmbedProblem(faults.sparse, |chunks|)
        else if faults.store != NoFault then Some(StorageFailed)
        else None
  }

  predicate StoreSucceeds(p: Processing, content: Content, faults: IngestFaults) {
    ContentProblem(p, content, faults) == None
  }

  /** The points a successful ingest adds. */
  ghost function Added(p: Processing, namespace: string, version: nat, document: DocumentId, content: Content,
      extra: Metadata): Points {
    match ChunksOf(p.strategy, content.elements, p.decodes)
    case Err(_) => map[]
    case Ok(chunks) => Written(IngestEntries(namespace, version, document, chunks, p.embed, p.sparse, extra))
  }

  /** A chunk as the ingest of its document stores it. */
  predicate IngestedPoint(id: ChunkId, p: Point, namespace: string, version: nat, document: DocumentId) {
    && id == IngestChunkId(document, p.position)
    && p.document == document && p.namespace == namespace && p.version == version
  }

  /** `now` is `before` plus, at most, ingested chunks of one document. */
  ghost predicate OnlyGained(before: Points, now: Points, namespace: string, version: nat, document: DocumentId) {
    && (forall id | id in before :: id in now && now[id] == before[id])
    && forall id | id in now && id !in before :: IngestedPoint(id, now[id], namespace, version, document)
  }

  lemma {:induction false} StoreGains(backend: Backend, before: Points, batch: seq<Entry>, fault: StoreFault,
      namespace: string, version: nat, document: DocumentId)
    requires forall id | id in Written(batch) ::
      id !in before && IngestedPoint(id, Written(batch)[id], namespace, version, document)
    ensures OnlyGained(before, AfterStore(backend, before, batch, fault), namespace, version, document)
    ensures StoreProblem(backend, before, batch, fault).Some? && !LeavesResidue(backend, fault) ==>
      AfterStore(backend, before, batch, fault) == before
  {
  }

  /** Ids of a document without points are not taken. */
  lemma {:induction false} IngestIdsFree(points: Points, namespace: string, version: nat, document: DocumentId,
      chunks: seq<DocumentChunk>, embed: Text -> Vector, sparse: Option<Text -> SparseVector>, extra: Metadata)
    requires WellNamed(points) && NoPointsOf(points, document)
    ensures var written := Written(IngestEntries(namespace, version, document, chunks, embed, sparse, extra));
      forall id | id in written :: id !in points && IngestedPoint(id, written[id], namespace, version, document)
  {
    var written := Written(IngestEntries(namespace, version, document, chunks, embed, sparse, extra));
    IngestWrites(namespace, version, document, chunks, embed, sparse, extra);
    assert forall id | id in points :: WellNamedPoint(id, points[id]) && id.document == points[id].document;
    forall id | id in written
      ensures id !in points && IngestedPoint(id, written[id], namespace, version, document)
    {
      assert id == IngestChunkId(document, id.position);
    }
  }

  lemma {:induction false} IngestEntriesDistinct(points: Points, namespace: string, version: nat,
      document: DocumentId, chunks: seq<DocumentChunk>, embed: Text -> Vector, sparse: Option<Text -> SparseVector>,
      extra: Metadata)
    requires WellNamed(points) && NoPointsOf(points, document) && chunks != []
    ensures var batch := IngestEntries(namespace, version, document, chunks, embed, sparse, extra);
      batch != [] && OneDocument(batch) && !Collides(points, batch)
  {
    var batch := IngestEntries(namespace, version, document, chunks, embed, sparse, extra);
    assert forall id | id in points :: WellNamedPoint(id, points[id]) && id.document == points[id].document;
    forall i | 0 <= i < |batch| ensures batch[i].0 !in points && forall j | 0 <= j < i :: batch[j].0 != batch[i].0 {
    }
  }

  /** Extract, chunk, embed, build and store, stopping at the first failure. */
  method StoreContent(store: VectorStore, p: Processing, namespace: string, document: DocumentId, content: Content,
      extra: Metadata, faults: IngestFaults)
    returns (r: Result<nat, IngestError>)
    requires store.Valid() && WellNamed(store.points) && NoPointsOf(store.points, document)
    modifies store`points, store`order
    ensures store.Valid()
    ensures r.Ok? <==> StoreSucceeds(p, content, faults)
    ensures r.Err? ==> ContentProblem(p, content, faults) == Some(r.error)
    ensures r.Ok? ==> store.points == old(store.points) + Added(p, namespace, store.active, document, content, extra)
    ensures r.Ok? ==> r.value == |ChunksOf(p.strategy, content.elements, p.decodes).value|
    ensures OnlyGained(old(store.points), store.points, namespace, store.active, document)
    ensures r.Err? && !LeavesResidue(store.backend, faults.store) ==> store.points == old(store.points)
  {
    if faults.extractFails {
      return Err(StorageFailed);
    }
    var chunked := ChunkDocument(p.strategy, content.elements, p.decodes);
    if chunked.Err? {
      return Err(StorageFailed);
    }
    var chunks := chunked.value;
    if chunks == [] {
      return Err(NoText);
    }
    var dense, sparse;
    var problem := None;
    problem, dense, sparse := EmbedChunks(p, chunks, faults);
    if problem.Some? {
      return Err(problem.value);
    }
    ghost var batch := IngestEntries(namespace, store.active, document, chunks, p.embed, p.sparse, extra);
    var embeddings := BuildEmbeddings(document, chunks, dense, sparse, extra);
    assert Batch(namespace, store.active, embeddings) == batch;
    IngestIdsFree(store.points, namespace, store.active, document, chunks, p.embed, p.sparse, extra);
    IngestEntriesDistinct(store.points, namespace, store.active, document, chunks, p.embed, p.sparse, extra);
    StoreGains(store.backend, store.points, batch, faults.store, namespace, store.active, document);
    var stored := store.Store(namespace, embeddings, None, faults.store);
    if stored.Err? {
      return Err(StorageFailed);
    }
    return Ok(|stored.value|);
  }

  /** Dense and, when a provider is registered, sparse vectors, with their count checks. */
  method EmbedChunks(p: Processing, chunks: seq<DocumentChunk>, faults: IngestFaults)
    returns (problem: Option<IngestError>, dense: seq<Vector>, sparse: seq<Option<SparseVector>>)
    ensures problem == if EmbedProblem(faults.embedding, |chunks|).Some? then EmbedProblem(faults.embedding, |chunks|)
                       else if p.sparse.Some? then EmbedProblem(faults.sparse, |chunks|) else None
    ensures problem == None ==> |dense| == |chunks| && |sparse| == |chunks|
    ensures problem == None ==> forall i | 0 <= i < |chunks| ::
      dense[i] == p.embed(chunks[i].text) && sparse[i] == if p.sparse.Some? then Some(p.sparse.value(chunks[i].text))
         else None
  {
    var texts := seq(|chunks|, i requires 0 <= i < |chunks| => chunks[i].text);
    sparse := seq(|chunks|, i => None);
    var vectors := EmbedDocuments(texts, p.embed, Vector([]), faults.embedding);
    if vectors.None? {
      return Some(StorageFailed), [], sparse;
    }
    dense := vectors.value;
    if |dense| != |chunks| {
      return Some(CountMismatch), dense, sparse;
    }
    if p.sparse.Some? {
      var lexical := EmbedDocuments(texts, p.sparse.value, SparseVector([], []), faults.sparse);
      if lexical.None? {
        return Some(StorageFailed), dense, sparse;
      }
      if |lexical.value| != |chunks| {
        return Some(CountMismatch), dense, sparse;
      }
      sparse := seq(|chunks|, i requires 0 <= i < |chunks| => Some(lexical.value[i]));
    }
    return None, dense, sparse;
  }

  // ---- Compensation ----

  /** The row a new version gets. */
  function NewRow(t: Table, namespace: string, filename: string, content: Content, was: Option<DocumentId>): Document
    requires was.Some? ==> was.value in t
  {
    Document(namespace, filename, content.hash, if was.Some? then t[was.value].version + 1 else 1, was, [], None, None)
  }

  /** The table once the replaced row, if any, is soft-deleted. */
  function Hidden(t: Table, was: Option<DocumentId>): Table {
    if was.Some? then SoftDelete(t, was.value, Superseded) else t
  }

  /**
   * The table when the new version is about to be processed: the old one soft-deleted, the new row in if
   * its commit went through.
   */
  function Started(t: Table, was: Option<DocumentId>, id: DocumentId, row: Document, inserted: bool): Table {
    if inserted then Hidden(t, was)[id := row] else Hidden(t, was)
  }

  function Cleaned(t: Table, id: DocumentId, inserted: bool, faults: IngestFaults): Table {
    if inserted && !faults.cleanupFails then SoftDelete(t, id, PipelineFailure) else t
  }

  /** The restore is an update like any other: an index standing against it makes it fail. */
  function Restored(t: Table, was: Option<DocumentId>, faults: IngestFaults): Table {
    if was.Some? && !faults.restoreFails && was.value in t && !Violates(t, was.value, t[was.value])
       then Undelete(t, was.value) else t
  }

  function Compensated(t: Table, was: Option<DocumentId>, id: DocumentId, inserted: bool, faults: IngestFaults): Table {
    Restored(Cleaned(t, id, inserted, faults), was, faults)
  }

  /** An upload that is new content under its name, against the row it replaces. */
  ghost predicate NewContent(t: Table, namespace: string, filename: string, content: Content, was: Option<DocumentId>,
      id: DocumentId) {
    && TableValid(t) && id !in t
    && LiveBy(t, namespace, Hash, content.hash) == None && was == LiveBy(t, namespace, Filename, filename)
  }

  lemma {:induction false} HiddenValid(t: Table, was: Option<DocumentId>)
    requires TableValid(t) && (was.Some? ==> IsLive(t, was.value))
    ensures TableValid(Hidden(t, was))
    ensures forall d: DocumentId :: IsLive(Hidden(t, was), d) <==> IsLive(t, d) && was != Some(d)
    ensures forall d: DocumentId | d in t :: d in Hidden(t, was) && (was != Some(d) ==> Hidden(t, was)[d] == t[d])
    ensures was.Some? ==> Hidden(t, was)[was.value] == t[was.value].(deleted := Some(Superseded))
  {
    if was.Some? {
      SoftDeleteKeeps(t, was.value, Superseded);
    }
  }

  /** With the old row hidden, the new one clashes with nothing. */
  lemma {:induction false} StartedValid(t: Table, namespace: string, filename: string, content: Content,
      was: Option<DocumentId>, id: DocumentId, inserted: bool)
    requires NewContent(t, namespace, filename, content, was, id)
    ensures TableValid(Hidden(t, was))
    ensures TableValid(Started(t, was, id, NewRow(t, namespace, filename, content, was), inserted))
  {
    HiddenValid(t, was);
    var row, hidden := NewRow(t, namespace, filename, content, was), Hidden(t, was);
    forall d: DocumentId | IsLive(hidden, d) ensures !Clash(hidden[d], row) {
      assert IsLive(t, d);
    }
    InsertKeeps(hidden, id, row);
  }

  lemma {:induction false} CleanedValid(t: Table, id: DocumentId, inserted: bool, faults: IngestFaults)
    requires TableValid(t)
    ensures TableValid(Cleaned(t, id, inserted, faults))
  {
    SoftDeleteKeeps(t, id, PipelineFailure);
  }

  lemma {:induction false} RestoredValid(t: Table, was: Option<DocumentId>, faults: IngestFaults)
    requires TableValid(t)
    ensures TableValid(Restored(t, was, faults))
  {
    if was.Some? && was.value in t && !Violates(t, was.value, t[was.value]) {
      UndeleteKeeps(t, was.value);
    }
  }

  ghost predicate SameLive(t: Table, u: Table) {
    forall d: DocumentId :: (IsLive(t, d) <==> IsLive(u, d)) && (IsLive(t, d) ==> t[d] == u[d])
  }

  /**
   * What is left after the cleanup: all but the hidden row as before, and the new row live only if its
   * cleanup failed.
   */
  ghost predicate CleanedFrom(t: Table, cleaned: Table, was: Option<DocumentId>, id: DocumentId, row: Document,
      inserted: bool, stays: bool)
    requires was.Some? ==> was.value in t
  {
    && (forall d: DocumentId | d != id ::
        (d in t <==> d in cleaned) && (d in t && was != Some(d) ==> cleaned[d] == t[d]))
    && (id in cleaned <==> inserted)
       && (inserted ==> cleaned[id] == if stays then row else row.(deleted := Some(PipelineFailure)))
    && (was.Some? ==> was.value in cleaned && cleaned[was.value] == t[was.value].(deleted := Some(Superseded)))
  }

  lemma {:induction false} CleanedLive(t: Table, namespace: string, filename: string, content: Content,
      was: Option<DocumentId>, id: DocumentId, inserted: bool, faults: IngestFaults)
    requires NewContent(t, namespace, filename, content, was, id)
    ensures var row := NewRow(t, namespace, filename, content, was);
      CleanedFrom(t, Cleaned(Started(t, was, id, row, inserted), id, inserted, faults), was, id, row, inserted,
                  inserted && faults.cleanupFails)
  {
    HiddenValid(t, was);
  }

  /** The restore brings the hidden row back, unless it fails or the failed successor still holds its name. */
  lemma {:induction false} RestoreEffect(t: Table, cleaned: Table, namespace: string, filename: string,
      content: Content, was: Option<DocumentId>, id: DocumentId, inserted: bool, faults: IngestFaults)
    requires NewContent(t, namespace, filename, content, was, id)
    requires CleanedFrom(t, cleaned, was, id, NewRow(t, namespace, filename, content, was), inserted,
                         inserted && faults.cleanupFails)
    ensures var after := Restored(cleaned, was, faults); var stays := inserted && faults.cleanupFails;
      && (forall d: DocumentId | IsLive(after, d) && d != id :: IsLive(t, d) && t[d] == after[d])
      && (forall d: DocumentId | IsLive(t, d) && was != Some(d) :: IsLive(after, d))
      && (was.Some? ==> (IsLive(after, was.value) <==> !faults.restoreFails && !stays))
      && (IsLive(after, id) <==> stays)
      && (forall d: DocumentId | d in t :: d in after && after[d].namespace == t[d].namespace)
      && (forall d: DocumentId | d in after :: d in t || d == id)
      && (forall d: DocumentId | Ingested(after, d) && d != id :: Ingested(t, d))
      && (Ingested(after, id) <==> stays)
      && (id in after <==> inserted) && (inserted ==> after[id].namespace == namespace)
  {
    if was.Some? {
      RestoreAllowed(t, cleaned, namespace, filename, content, was.value, id, inserted,
                     inserted && faults.cleanupFails);
    }
  }

  /** With both compensations done the live rows are exactly what they were, and only then. */
  lemma {:induction false} CompensationRestores(t: Table, namespace: string, filename: string, content: Content,
      was: Option<DocumentId>, id: DocumentId, inserted: bool, faults: IngestFaults)
    requires NewContent(t, namespace, filename, content, was, id)
    ensures var after :=
        Compensated(Started(t, was, id, NewRow(t, namespace, filename, content, was), inserted), was, id, inserted,
                    faults);
      && TableValid(after)
      && (SameLive(t, after) <==> (inserted ==> !faults.cleanupFails) && (was.Some? ==> !faults.restoreFails))
      && (forall d: DocumentId | IsLive(after, d) && d != id :: IsLive(t, d) && t[d] == after[d])
      && (IsLive(after, id) <==> inserted && faults.cleanupFails)
      && (forall d: DocumentId | d in t :: d in after && after[d].namespace == t[d].namespace)
      && (forall d: DocumentId | d in after :: d in t || d == id)
      && (forall d: DocumentId | Ingested(after, d) && d != id :: Ingested(t, d))
      && (Ingested(after, id) <==> inserted && faults.cleanupFails)
      && (id in after <==> inserted) && (inserted ==> after[id].namespace == namespace)
  {
    var started := Started(t, was, id, NewRow(t, namespace, filename, content, was), inserted);
    var cleaned := Cleaned(started, id, inserted, faults);
    StartedValid(t, namespace, filename, content, was, id, inserted);
    CleanedValid(started, id, inserted, faults);
    CleanedLive(t, namespace, filename, content, was, id, inserted, faults);
    RestoredValid(cleaned, was, faults);
    RestoreEffect(t, cleaned, namespace, filename, content, was, id, inserted, faults);
    SameLiveIff(t, Restored(cleaned, was, faults), was, id, inserted && faults.cleanupFails, faults.restoreFails);
  }

  lemma {:induction false} SameLiveIff(t: Table, after: Table, was: Option<DocumentId>, id: DocumentId, stays: bool,
      restoreFails: bool)
    requires id !in t && (was.Some? ==> IsLive(t, was.value))
    requires forall d: DocumentId | IsLive(after, d) && d != id :: IsLive(t, d) && t[d] == after[d]
    requires forall d: DocumentId | IsLive(t, d) && was != Some(d) :: IsLive(after, d)
    requires was.Some? ==> (IsLive(after, was.value) <==> !restoreFails && !stays)
    requires IsLive(after, id) <==> stays
    ensures SameLive(t, after) <==> !stays && (was.Some? ==> !restoreFails)
  {
    if SameLive(t, after) {
      assert IsLive(t, id) <==> IsLive(after, id);
      if was.Some? {
        assert IsLive(t, was.value) <==> IsLive(after, was.value);
      }
    }
  }

  /** The restore meets a standing index exactly when the failed successor is still live. */
  lemma {:induction false} RestoreAllowed(t: Table, cleaned: Table, namespace: string, filename: string,
      content: Content, was: DocumentId, id: DocumentId, inserted: bool, stays: bool)
    requires NewContent(t, namespace, filename, content, Some(was), id) && (stays ==> inserted)
    requires CleanedFrom(t, cleaned, Some(was), id, NewRow(t, namespace, filename, content, Some(was)), inserted, stays)
    ensures Violates(cleaned, was, cleaned[was]) <==> stays
  {
    if stays {
      assert id in cleaned && IsLive(cleaned, id) && Clash(cleaned[id], cleaned[was]);
    }
    forall other | IsLive(cleaned, other) && other != was && other != id ensures !Clash(cleaned[other], cleaned[was]) {
      assert IsLive(t, other) && IsLive(t, was);
    }
  }
}
