/**
 * Why a completed job alone does not make its target valid: what an earlier job left there of a document
 * deleted since is not the new job's to repair. One concrete run on Qdrant.
 */
module StaleTargets {
  import opened Support
  import opened ChunkIds
  import opened Chunking
  import opened VectorStores
  import opened Embedding
  import opened ChunkCopies
  import opened Reindex
  import opened ReindexRun
  import opened DocumentTable
  import opened ChunkLinks
  import opened DocumentDeletion
  import opened StrayChunks
  import opened SystemSteps

  /** A document of one parent and one child, served at version 1. */
  const PARENT_POINT := Point("docs", 1, 0, 0, [7], Vector([]), None, Parent, map[], None)

  const CHILD_POINT := Point("docs", 1, 0, 1, [7], Vector([]), None, Child, map[], Some(IngestChunkId(0, 0)))

  const STORED: Points := map[IngestChunkId(0, 0) := PARENT_POINT, IngestChunkId(0, 1) := CHILD_POINT]

  const ROW := Document("docs", "a.md", "digest", 1, None, [], None, Some(2))

  /** A job into version 2 whose only store call times out after the child was written. */
  const TIMED_OUT := Faults(false, false, [DocumentFault(false, Embeds, TimedOut({TargetChunkId(0, 1, 2)}), false)],
                            false, false)

  const CHILD_COPY := CHILD_POINT.(version := 2, parent := Some(TargetChunkId(0, 0, 2)))

  const LEFT: Points := STORED[TargetChunkId(0, 1, 2) := CHILD_COPY]

  lemma {:induction false} StoredPieces()
    ensures Matching(STORED, "docs", 0, 1) == {IngestChunkId(0, 0), IngestChunkId(0, 1)}
    ensures DistinctPositions(STORED, "docs", 0, 1)
  {
  }

  lemma {:induction false} KeptCopy()
    ensures Keep(Copies(STORED, "docs", 0, 1, 2, Flat), {TargetChunkId(0, 1, 2)})
         == map[TargetChunkId(0, 1, 2) := CHILD_COPY]
  {
    StoredPieces();
    CopyIn(STORED, "docs", 0, 1, 2, Flat, IngestChunkId(0, 1));
  }

  /** The timed-out job ends with the child's copy at the target and without its parent's. */
  lemma {:induction false} JobLeavesChild()
    ensures AllDistinct(STORED, "docs", [0], 1)
    ensures LEFT == LastOf(STORED, JobStates(Qdrant, 1, STORED, "docs", [0], 1, 2, Flat, TIMED_OUT))
  {
    StoredPieces();
    KeptCopy();
    assert AllDistinct(STORED, "docs", [0], 1);
    assert |Matching(STORED, "docs", 0, 1)| == 2;
    assert CopiesUpTo(STORED, "docs", [0], 0, 1, 2, Flat) == map[] && STORED + map[] == STORED;
    assert StateAfter(Qdrant, STORED, "docs", [0], 0, 1, 2, Flat, FaultAt(TIMED_OUT, 0)) == LEFT;
  }

  /**
   * The document is then deleted in a batch whose chunk delete fails; the served version is valid all the
   * while. A second job into version 2 finds nothing live and completes. After a switch a search returns
   * the child, whose parent is nowhere, and the row's deletion reason says nothing of a failed ingest.
   */
  lemma {:induction false} LeftoverChildServed()
    ensures var t := SoftDeleteAll(map[0 := ROW], DeletedOf(map[0 := ROW], "docs", [0]));
      var after := LEFT + AllCopies(LEFT, "docs", [], 1, 2, Flat);
      var child := TargetChunkId(0, 1, 2);
      && TableValid(t) && CollectionValid(LEFT, t, 1) && Ingested(t, 0) && IsSnapshot([], t, "docs")
      && LEFT - Cleared(LEFT, "docs", [0], {0}) == LEFT
      && JobOutcome(Qdrant, LEFT, [], 1, "docs", 2, Flat, NO_FAULTS) == Some(0)
      && child in SearchView(Qdrant, after, 2, "docs", Live(t)) && after[child].level.Child?
      && after[child].parent == Some(TargetChunkId(0, 0, 2)) && TargetChunkId(0, 0, 2) !in after
  {
    hide CollectionValid, SearchView, DeletedOf, SoftDeleteAll, TableValid, JobOutcome, Cleared, RunProblem;
    DeletesIt(map[0 := ROW]);
    Deleted(map[0 := ROW]);
    GoneIsValid();
    NothingCleared();
    LeftIsValid();
    NothingToCopy();
    ChildShows();
  }

  const GONE: Table := map[0 := ROW.(deleted := Some(UserRequest))]

  lemma {:induction false} DeletesIt(table: Table)
    requires table == map[0 := ROW]
    ensures DeletedOf(table, "docs", [0]) == [0]
  {
    assert [0][..0] == [];
    assert DeletedOf(table, "docs", [0][..0]) == [];
  }

  lemma {:induction false} Deleted(table: Table)
    requires table == map[0 := ROW]
    ensures SoftDeleteAll(table, [0]) == GONE
  {
    assert [0][..0] == [];
    assert SoftDeleteAll(table, [0][..0]) == table;
  }

  lemma {:induction false} GoneIsValid()
    ensures TableValid(GONE) && Ingested(GONE, 0) && IsSnapshot([], GONE, "docs")
  {
  }

  lemma {:induction false} NothingCleared()
    ensures LEFT - Cleared(LEFT, "docs", [0], {0}) == LEFT
  {
    assert Cleared(LEFT, "docs", [0], {0}) == {};
  }

  lemma {:induction false} NothingToCopy()
    ensures Runnable(LEFT, "docs", [], 1, 2) && AllCopies(LEFT, "docs", [], 1, 2, Flat) == map[]
    ensures JobOutcome(Qdrant, LEFT, [], 1, "docs", 2, Flat, NO_FAULTS) == Some(0)
  {
  }

  lemma {:induction false} ChildShows()
    ensures LEFT + map[] == LEFT && TargetChunkId(0, 1, 2) in SearchView(Qdrant, LEFT, 2, "docs", Live(GONE))
  {
  }

  lemma {:induction false} LeftIsValid()
    ensures CollectionValid(LEFT, GONE, 1)
  {
    assert IsSlice([7], [7]) by { assert [7] <= [7][0..]; }
    assert Matching(LEFT, "docs", 0, 1) == {IngestChunkId(0, 0), IngestChunkId(0, 1)};
    assert DocumentValid(LEFT, "docs", 0, 1);
  }
}
