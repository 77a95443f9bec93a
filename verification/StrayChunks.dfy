/**
 * What a failed ingest on Qdrant can leave in a search. Its row is cleaned up, but points a timed-out
 * call had already written stay, and a child may stay without its parent.
 */
module StrayChunks {
  import opened Support
  import opened ChunkIds
  import opened Chunking
  import opened DualChunking
  import opened VectorStores
  import opened Embedding
  import opened DocumentTable
  import opened ChunkLinks
  import opened IngestBatch
  import opened IngestRun

  /** The points the server kept of a call that failed and was not, or could not be, compensated. */
  function KeptOf(fault: StoreFault): set<ChunkId> {
    if fault.NoFault? then {} else fault.applied
  }

  lemma {:induction false} StrayPoints(a: Points, batch: seq<Entry>, fault: StoreFault)
    requires batch != [] && LeavesResidue(Qdrant, fault)
    ensures AfterStore(Qdrant, a, batch, fault) == a + Keep(Written(batch), KeptOf(fault))
  {
  }

  /** Where the remap sends a child: to the last parent with its chunker-local id. */
  function ParentPosition(chunks: seq<DocumentChunk>, i: nat): nat
    requires i < |chunks|
  {
    if chunks[i].parent.None? then i
    else
      var p := LastParent(chunks, |chunks|, chunks[i].parent.value);
      if p.Some? then p.value else i
  }

  lemma {:induction false} ChildEntry(namespace: string, version: nat, id: DocumentId, chunks: seq<DocumentChunk>,
      i: nat, embed: Text -> Vector, sparse: Option<Text -> SparseVector>, extra: Metadata)
    requires LinksResolve(chunks) && i < |chunks| && chunks[i].level.Child?
    ensures var point := IngestEntry(namespace, version, id, chunks, i, embed, sparse, extra).1;
      && point.namespace == namespace && point.version == version && point.document == id && point.level.Child?
      && point.parent == Some(IngestChunkId(id, ParentPosition(chunks, i)))
    ensures ParentPosition(chunks, i) < |chunks|
    ensures var point := IngestEntry(namespace, version, id, chunks, i, embed, sparse, extra).1;
      var parent := IngestEntry(namespace, version, id, chunks, ParentPosition(chunks, i), embed, sparse, extra).1;
      && parent.namespace == namespace && parent.version == version && parent.document == id && parent.level.Parent?
      && IsSlice(point.text, parent.text)
  {
    assert LinkResolves(chunks, chunks[i]);
  }

  /**
   * A child kept from such a call shows in every search of its namespace. A fetch of its parent id finds
   * something exactly when the parent was kept with it, and then it is the parent that contains the child.
   */
  lemma {:induction false} StrayChildHasParentIff(a: Points, t: Table, p: Processing, namespace: string, active: nat,
      id: DocumentId, content: Content, extra: Metadata, fault: StoreFault, i: nat, live: LiveDocuments)
    requires WellNamed(a) && Owned(a, t) && id !in t && LeavesResidue(Qdrant, fault)
    requires ChunksOf(p.strategy, content.elements, p.decodes).Ok?
    requires var chunks := ChunksOf(p.strategy, content.elements, p.decodes).value;
      i < |chunks| && chunks[i].level.Child? && IngestChunkId(id, i) in KeptOf(fault)
    ensures var chunks := ChunksOf(p.strategy, content.elements, p.decodes).value;
      var b := AfterStore(Qdrant, a, IngestEntries(namespace, active, id, chunks, p.embed, p.sparse, extra), fault);
      var child, parent := IngestChunkId(id, i), IngestChunkId(id, ParentPosition(chunks, i));
      && child in SearchView(Qdrant, b, active, namespace, live)
      && b[child].level.Child? && b[child].document == id && b[child].parent == Some(parent)
      && (parent in KeptOf(fault) <==> parent in b && Fetchable(Qdrant, b[parent], active, namespace, live))
      && (parent in b ==> && parent in KeptOf(fault) && b[parent].level.Parent? && b[parent].document == id
                          && IsSlice(b[child].text, b[parent].text))
  {
    hide AfterStore, Written, IngestEntry, WellNamed, Owned, ChunksOf, LinksResolve, ParentPosition, KeptOf,
      LeavesResidue;
    var chunks := ChunksOf(p.strategy, content.elements, p.decodes).value;
    var batch := IngestEntries(namespace, active, id, chunks, p.embed, p.sparse, extra);
    FreshDocument(a, t, id);
    IngestWrites(namespace, active, id, chunks, p.embed, p.sparse, extra);
    IngestIdsFree(a, namespace, active, id, chunks, p.embed, p.sparse, extra);
    StrategyLinksResolve(p.strategy, content.elements, p.decodes);
    ChildEntry(namespace, active, id, chunks, i, p.embed, p.sparse, extra);
    assert |batch| == |chunks|;
    StrayPoints(a, batch, fault);
    assert IngestChunkId(id, ParentPosition(chunks, i)) in Written(batch);
  }

  /** One token, chunked dual: a parent and its child. */
  const ONE_WORD := Content("digest", true, [Element(TextElement, [7], "text", map[])])

  function Plain(text: Text): bool { true }

  function Flat(text: Text): Vector { Vector([]) }

  const DUAL := Processing(DualStrategy(1, 0), Plain, Flat, None)

  /** The call times out after the server wrote the child and before it wrote the parent; nothing else fails. */
  const CHILD_ONLY := IngestFaults(false, false, false, false, false, false, Embeds, Embeds,
                                   TimedOut({IngestChunkId(0, 1)}), false, false, false, false)

  lemma {:induction false} OneWordChunks()
    ensures ChunksOf(DUAL.strategy, ONE_WORD.elements, DUAL.decodes) == Ok(CHUNKS)
  {
    var cfg, elements, tokens: Text := Config(1, 0, 3), ONE_WORD.elements, [7];
    assert elements[1..] == [] && tokens == [] + elements[0].text && tokens[0..1] == tokens;
    assert Segments(elements, [], map[]) == [TextRun(tokens, map[])];
    assert Windows(tokens, 1, 0, Plain, 0, 0) == [Window(0, 0, tokens)];
    assert ChildChunks([Window(0, 0, tokens)], map[], 1, 0) == [ChildChunk(tokens, map[], 1, 0)];
    var family := Family(tokens, map[], 0, cfg, Plain);
    assert family == [ParentChunk(tokens, map[], 0), ChildChunk(tokens, map[], 1, 0)];
    assert EmitRun(tokens, map[], 0, 0, cfg, Plain) == family + EmitRun(tokens, map[], 1, 2, cfg, Plain) == family;
    EmitCons(TextRun(tokens, map[]), [], 0, cfg, Plain);
    assert [TextRun(tokens, map[])] + [] == [TextRun(tokens, map[])];
  }

  /** The two chunks of ONE_WORD and the row its ingest inserted and then cleaned up. */
  const CHUNKS := [ParentChunk([7], map[], 0), ChildChunk([7], map[], 1, 0)]

  const CLEANED_UP := Document("docs", "a.md", "digest", 1, None, [], Some(PipelineFailure), None)

  lemma {:induction false} CleanedUp()
    ensures Compensated(Started(map[], None, 0, NewRow(map[], "docs", "a.md", ONE_WORD, None), true), None, 0, true,
                        CHILD_ONLY)
         == map[0 := CLEANED_UP]
    ensures TableValid(map[0 := CLEANED_UP])
  {
  }

  /**
   * A first ingest into an empty system that times out this way. Its row is cleaned up and the system is
   * valid; yet a search returns the child, and its parent is nowhere. The row's deletion reason tells.
   */
  lemma {:induction false} StrayChildWithoutParent()
    ensures var row := NewRow(map[], "docs", "a.md", ONE_WORD, None);
      var u := Compensated(Started(map[], None, 0, row, true), None, 0, true, CHILD_ONLY);
      var b := AfterStore(Qdrant, map[], IngestEntries("docs", 1, 0, CHUNKS, DUAL.embed, DUAL.sparse, map[]),
                          CHILD_ONLY.store);
      var child := IngestChunkId(0, 1);
      && ChunksOf(DUAL.strategy, ONE_WORD.elements, DUAL.decodes) == Ok(CHUNKS)
      && TableValid(u) && CollectionValid(b, u, 1) && !Ingested(u, 0)
      && child in SearchView(Qdrant, b, 1, "docs", Live(u)) && b[child].level.Child? && b[child].document == 0
      && b[child].parent.Some? && b[child].parent.value !in b
  {
    var entries := IngestEntries("docs", 1, 0, CHUNKS, DUAL.embed, DUAL.sparse, map[]);
    var b := AfterStore(Qdrant, map[], entries, CHILD_ONLY.store);
    OneWordChunks();
    CleanedUp();
    LastParentIsFirst();
    StrayChildHasParentIff(map[], map[], DUAL, "docs", 1, 0, ONE_WORD, map[], CHILD_ONLY.store, 1,
                           Live(map[0 := CLEANED_UP]));
    IngestIdsFree(map[], "docs", 1, 0, CHUNKS, DUAL.embed, DUAL.sparse, map[]);
    StrayPoints(map[], entries, CHILD_ONLY.store);
    StrayIsValid(b, Written(entries), CHILD_ONLY.store);
  }

  lemma {:induction false} LastParentIsFirst()
    ensures ParentPosition(CHUNKS, 1) == 0
  {
    assert CHUNKS[1].parent == Some(0);
    assert LastParent(CHUNKS, 2, 0) == LastParent(CHUNKS, 1, 0) == Some(0);
  }

  lemma {:induction false} StrayIsValid(b: Points, written: Points, fault: StoreFault)
    requires b == map[] + Keep(written, KeptOf(fault))
    requires forall id | id in written :: IngestedPoint(id, written[id], "docs", 1, 0)
    ensures CollectionValid(b, map[0 := CLEANED_UP], 1)
  {
  }
}
