/** From an extracted document to the batch that ingest stores: chunk, embed, assign ids, remap parents. */
module IngestBatch {
  import opened Support
  import opened ChunkIds
  import opened Chunking
  import opened DualChunking
  import opened VectorStores
  import opened ChunkLinks

  /** The configured chunking strategy; the dual one uses parents three chunks long. */
  datatype Strategy = FixedStrategy(size: nat, overlap: nat) | DualStrategy(size: nat, overlap: nat)

  function ChunksOf(strategy: Strategy, elements: seq<Element>, decodes: Text -> bool): Result<seq<DocumentChunk>,
      ConfigError> {
    if strategy.overlap >= strategy.size then Err(OverlapNotBelowSize)
    else match strategy
      case FixedStrategy(size, overlap) => Ok(FixedChunks(elements, size, overlap, decodes))
      case DualStrategy(size, overlap) => Ok(DualChunks(elements, Config(size, overlap, size * 3), decodes))
  }

  method ChunkDocument(strategy: Strategy, elements: seq<Element>,
      decodes: Text -> bool) returns (r: Result<seq<DocumentChunk>, ConfigError>)
    ensures r == ChunksOf(strategy, elements, decodes)
    ensures r.Err? <==> strategy.overlap >= strategy.size
    ensures r.Ok? ==> match strategy
                      case FixedStrategy(size, overlap) => r.value == FixedChunks(elements, size, overlap, decodes)
                      case DualStrategy(size, overlap) =>
                        r.value == DualChunks(elements, Config(size, overlap, 3 * size), decodes)
  {
    match strategy
    case FixedStrategy(size, overlap) => r := ChunkFixedSize(elements, size, overlap, decodes);
    case DualStrategy(size, overlap) => r := ChunkDual(elements, Config(size, overlap, size * 3), decodes);
  }

  // ---- Parent remapping ----

  /** The last of the first n chunks that is a parent with this chunker-local id. */
  function LastParent(chunks: seq<DocumentChunk>, n: nat, key: nat): Option<nat>
    requires n <= |chunks|
  {
    if n == 0 then None
    else if chunks[n - 1].level.Parent? && chunks[n - 1].parent == Some(key) then Some(n - 1)
    else LastParent(chunks, n - 1, key)
  }

  /** The stored parent id of a chunk: only children have one, and only if their parent was emitted. */
  function ParentLink(document: DocumentId, chunks: seq<DocumentChunk>, c: DocumentChunk): Option<ChunkId> {
    if c.level.Child? && c.parent.Some? then
      match LastParent(chunks, |chunks|, c.parent.value)
      case None => None
      case Some(p) => Some(IngestChunkId(document, p))
    else None
  }

  function StoredForm(document: DocumentId, chunks: seq<DocumentChunk>, i: nat, dense: Vector,
      sparse: Option<SparseVector>, extra: Metadata): ChunkEmbedding
    requires i < |chunks|
  {
    var c := chunks[i];
    ChunkEmbedding(IngestChunkId(document, i), document, i, c.text, dense, sparse, c.level, c.metadata + extra,
                   ParentLink(document, chunks, c))
  }

  /** The id map first, then the embeddings, as in the source. */
  method BuildEmbeddings(document: DocumentId, chunks: seq<DocumentChunk>, dense: seq<Vector>,
      sparse: seq<Option<SparseVector>>, extra: Metadata)
    returns (r: seq<ChunkEmbedding>)
    requires |dense| == |chunks| && |sparse| == |chunks|
    ensures |r| == |chunks|
    ensures forall i | 0 <= i < |chunks| :: r[i] == StoredForm(document, chunks, i, dense[i], sparse[i], extra)
  {
    var parentIds: map<nat, ChunkId> := map[];
    for n := 0 to |chunks|
      invariant forall key: nat :: match LastParent(chunks, n, key)
                                   case None => key !in parentIds
                                   case Some(p) => key in parentIds && parentIds[key] == IngestChunkId(document, p)
    {
      if chunks[n].parent.Some? && chunks[n].level.Parent? {
        parentIds := parentIds[chunks[n].parent.value := IngestChunkId(document, n)];
      }
    }
    r := [];
    for n := 0 to |chunks|
      invariant |r| == n
      invariant forall i | 0 <= i < n :: r[i] == StoredForm(document, chunks, i, dense[i], sparse[i], extra)
    {
      var c := chunks[n];
      var link := if c.level.Child? && c.parent.Some? && c.parent.value in parentIds
         then Some(parentIds[c.parent.value]) else None;
      r := r + [ChunkEmbedding(IngestChunkId(document, n), document, n, c.text, dense[n], sparse[n], c.level,
                               c.metadata + extra, link)];
    }
  }

  // ---- What the batch leaves in the collection ----

  /** The whole batch of a document, each chunk embedded on its own. */
  ghost function IngestEntries(namespace: string, version: nat, document: DocumentId, chunks: seq<DocumentChunk>,
      embed: Text -> Vector, sparse: Option<Text -> SparseVector>, extra: Metadata): seq<Entry>
  {
    seq(|chunks|, i requires 0 <= i < |chunks| =>
      IngestEntry(namespace, version, document, chunks, i, embed, sparse, extra))
  }

  ghost function IngestEntry(namespace: string, version: nat, document: DocumentId, chunks: seq<DocumentChunk>,
      i: nat, embed: Text -> Vector, sparse: Option<Text -> SparseVector>, extra: Metadata): Entry
    requires i < |chunks|
  {
    var c := StoredForm(document, chunks, i, embed(chunks[i].text),
                        if sparse.Some? then Some(sparse.value(chunks[i].text)) else None, extra);
    (c.id, PointOf(namespace, version, c))
  }

  /** Every child's parent is found again, and contains it. */
  ghost predicate LinksResolve(chunks: seq<DocumentChunk>) {
    forall i | 0 <= i < |chunks| && chunks[i].level.Child? :: LinkResolves(chunks, chunks[i])
  }

  ghost predicate LinkResolves(chunks: seq<DocumentChunk>, c: DocumentChunk) {
    && c.parent.Some?
    && var p := LastParent(chunks, |chunks|, c.parent.value);
       p.Some? && p.value < |chunks| && ParentOf(chunks[p.value], c)
  }

  lemma {:induction false} LastParentIs(chunks: seq<DocumentChunk>, n: nat, p: nat)
    requires WellLinked(chunks, 0) && p < n <= |chunks| && chunks[p].level.Parent?
    ensures LastParent(chunks, n, p) == Some(p)
  {
    assert WellLinkedAt(chunks, 0, p) && WellLinkedAt(chunks, 0, n - 1);
    if n - 1 != p {
      LastParentIs(chunks, n - 1, p);
    }
  }

  lemma {:induction false} WellLinkedResolves(chunks: seq<DocumentChunk>)
    requires WellLinked(chunks, 0)
    ensures LinksResolve(chunks)
  {
    forall i | 0 <= i < |chunks| && chunks[i].level.Child? ensures LinkResolves(chunks, chunks[i]) {
      assert WellLinkedAt(chunks, 0, i);
      LastParentIs(chunks, |chunks|, chunks[i].parent.value);
    }
  }

  /** Both strategies hand ingest chunks whose links resolve. */
  lemma {:induction false} StrategyLinksResolve(strategy: Strategy, elements: seq<Element>, decodes: Text -> bool)
    requires ChunksOf(strategy, elements, decodes).Ok?
    ensures LinksResolve(ChunksOf(strategy, elements, decodes).value)
  {
    match strategy
    case FixedStrategy(_, _) =>
    case DualStrategy(size, overlap) =>
      var cfg := Config(size, overlap, size * 3);
      DualChunksLinked(elements, cfg, decodes);
      WellLinkedResolves(DualChunks(elements, cfg, decodes));
  }

  lemma {:induction false} EntriesWritten(batch: seq<Entry>, i: nat)
    requires i < |batch| && forall j, k | 0 <= j < k < |batch| :: batch[j].0 != batch[k].0
    ensures batch[i].0 in Written(batch) && Written(batch)[batch[i].0] == batch[i].1
  {
    WrittenAt(batch, batch[i].0);
    assert batch[i].0 in Written(batch);
    var e := (batch[i].0, Written(batch)[batch[i].0]);
    var k :| 0 <= k < |batch| && batch[k] == e;
  }

  /** The written batch holds chunk i of the document at its ingest id, and nothing else. */
  lemma {:induction false} IngestWrites(namespace: string, version: nat, document: DocumentId,
      chunks: seq<DocumentChunk>, embed: Text -> Vector, sparse: Option<Text -> SparseVector>, extra: Metadata)
    ensures var written := Written(IngestEntries(namespace, version, document, chunks, embed, sparse, extra));
      && (forall i | 0 <= i < |chunks| ::
            IngestChunkId(document, i) in written
            && written[IngestChunkId(document, i)]
                 == IngestEntry(namespace, version, document, chunks, i, embed, sparse, extra).1)
      && (forall id | id in written :: id.IngestChunkId? && id.document == document && id.position < |chunks|)
  {
    var batch := IngestEntries(namespace, version, document, chunks, embed, sparse, extra);
    forall i | 0 <= i < |chunks|
      ensures IngestChunkId(document, i) in Written(batch)
      ensures Written(batch)[IngestChunkId(document, i)]
           == IngestEntry(namespace, version, document, chunks, i, embed, sparse, extra).1
    {
      EntriesWritten(batch, i);
    }
    forall id | id in Written(batch) ensures id.IngestChunkId? && id.document == document && id.position < |chunks| {
      WrittenAt(batch, id);
    }
  }

  /**
   * The stored form of chunk i: its text, embedded as it is, its level and metadata under the document's own,
   * and the link to the parent with its chunker-local id if it is a child.
   */
  ghost predicate HoldsChunk(p: Point, namespace: string, version: nat, document: DocumentId,
        chunks: seq<DocumentChunk>, i: nat, embed: Text -> Vector, sparse: Option<Text -> SparseVector>,
        extra: Metadata)
    requires i < |chunks|
  {
    && p.namespace == namespace && p.version == version && p.document == document && p.position == i
    && p.text == chunks[i].text && p.dense == embed(chunks[i].text)
    && p.sparse == (if sparse.Some? then Some(sparse.value(chunks[i].text)) else None)
    && p.level == chunks[i].level && p.metadata == chunks[i].metadata + extra
    && (chunks[i].level != Child ==> p.parent == None)
    && (chunks[i].level == Child ==>
          exists j :: && 0 <= j < |chunks| && chunks[j].level == Parent && chunks[j].parent == chunks[i].parent
                      && p.parent == Some(IngestChunkId(document, j)))
  }

  lemma {:induction false} LastParentHas(chunks: seq<DocumentChunk>, n: nat, key: nat)
    requires n <= |chunks| && LastParent(chunks, n, key).Some?
    ensures var j := LastParent(chunks, n, key).value;
      j < n && chunks[j].level == Parent && chunks[j].parent == Some(key)
  {
    if !(chunks[n - 1].level.Parent? && chunks[n - 1].parent == Some(key)) {
      LastParentHas(chunks, n - 1, key);
    }
  }

  lemma {:induction false} IngestHoldsChunk(namespace: string, version: nat, document: DocumentId,
      chunks: seq<DocumentChunk>, i: nat, embed: Text -> Vector, sparse: Option<Text -> SparseVector>, extra: Metadata)
    requires LinksResolve(chunks) && i < |chunks|
    ensures var written := Written(IngestEntries(namespace, version, document, chunks, embed, sparse, extra));
      && IngestChunkId(document, i) in written
      && HoldsChunk(written[IngestChunkId(document, i)], namespace, version, document, chunks, i, embed, sparse, extra)
  {
    IngestWrites(namespace, version, document, chunks, embed, sparse, extra);
    if chunks[i].level.Child? {
      assert LinkResolves(chunks, chunks[i]);
      LastParentHas(chunks, |chunks|, chunks[i].parent.value);
    }
  }

  /** The batch on its own, as if it were all the collection held of the document. */
  lemma {:induction false} IngestedDocumentValid(points: Points, namespace: string, version: nat,
      document: DocumentId, chunks: seq<DocumentChunk>, embed: Text -> Vector, sparse: Option<Text -> SparseVector>,
      extra: Metadata)
    requires LinksResolve(chunks)
    requires forall id | id in points :: points[id].document != document
    ensures DocumentValid(points + Written(IngestEntries(namespace, version, document, chunks, embed, sparse, extra)),
                          namespace, document, version)
  {
    var written := Written(IngestEntries(namespace, version, document, chunks, embed, sparse, extra));
    var after := points + written;
    IngestWrites(namespace, version, document, chunks, embed, sparse, extra);
    var mine := Matching(after, namespace, document, version);
    forall id | id in mine ensures id in written && id.position < |chunks| && id == IngestChunkId(document, id.position)
                              && after[id] == IngestEntry(namespace, version, document, chunks, id.position, embed,
                                                          sparse, extra).1 {
    }
    forall id | id in mine ensures LinkedPoint(after, mine, after[id]) {
      var c := chunks[id.position];
      if c.level.Child? {
        assert LinkResolves(chunks, c);
        var p := LastParent(chunks, |chunks|, c.parent.value).value;
        assert IngestChunkId(document, p) in mine;
      }
    }
  }
}
