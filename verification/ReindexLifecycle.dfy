/** Re-running a reindex, and the whole lifecycle: reindex, switch the active version, reclaim the old one. */
module ReindexLifecycle {
  import opened Support
  import opened ChunkIds
  import opened VectorStores
  import opened ChunkCopies
  import opened Reindex
  import opened ReindexRun

  /** Without faults a document's step fails only on pgvector, and only if one of its target ids is taken. */
  lemma {:induction false} SmoothStep(backend: Backend, points: Points, namespace: string, documents: seq<DocumentId>,
      k: nat, source: nat, target: nat, embed: Embedder)
    requires k < |documents| && AllDistinct(points, namespace, documents, source)
    ensures IterationProblem(backend, points, namespace, documents, k, source, target, embed, SMOOTH) == None
       <==> backend.Qdrant? || Copies(points, namespace, documents[k], source, target, embed).Keys !! points.Keys
  {
    hide Copies, DistinctPositions;
    CopiesSize(points, namespace, documents[k], source, target, embed);
    if |Matching(points, namespace, documents[k], source)| == 0 {
      assert Copies(points, namespace, documents[k], source, target, embed) == map[];
    }
  }

  lemma {:induction false} FirstProblemSmooth(backend: Backend, points: Points, namespace: string,
      documents: seq<DocumentId>, k: nat, source: nat, target: nat, embed: Embedder)
    requires k <= |documents| && AllDistinct(points, namespace, documents, source)
    ensures FirstProblem(backend, points, namespace, documents, k, source, target, embed, NO_FAULTS) == None
       <==> backend.Qdrant? || forall j | k <= j < |documents| ::
         Copies(points, namespace, documents[j], source, target, embed).Keys !! points.Keys
    decreases |documents| - k
  {
    hide Copies, IterationProblem, AllDistinct;
    if k < |documents| {
      SmoothStep(backend, points, namespace, documents, k, source, target, embed);
      FirstProblemSmooth(backend, points, namespace, documents, k + 1, source, target, embed);
    }
  }

  /**
   * A run without faults completes exactly when the job has something to store and, on pgvector,
   * no target id is taken yet. So on pgvector a reindex can be re-run only if its first run stored
   * nothing that is still there; on Qdrant always.
   */
  lemma {:induction false} SmoothRunCompletesIff(backend: Backend, points: Points, namespace: string,
      documents: seq<DocumentId>, source: nat, target: nat, embed: Embedder)
    requires Runnable(points, namespace, documents, source, target)
    ensures RunProblem(backend, source, points, namespace, documents, source, target, embed, NO_FAULTS) == None
       <==> (documents == [] || ChunkTotal(points, namespace, documents, |documents|, source) > 0)
            && (backend.Pgvector? ==>
                AllCopies(points, namespace, documents, source, target, embed).Keys !! points.Keys)
  {
    FirstProblemSmooth(backend, points, namespace, documents, 0, source, target, embed);
    var all := AllCopies(points, namespace, documents, source, target, embed);
    if forall j | 0 <= j < |documents| ::
      Copies(points, namespace, documents[j], source, target, embed).Keys !! points.Keys {
      forall id | id in all ensures id !in points {
        AllCopiesAt(points, namespace, documents, source, target, embed, id);
        var j :| 0 <= j < |documents| && documents[j] == all[id].document;
        assert id in Copies(points, namespace, documents[j], source, target, embed);
      }
    }
    if all.Keys !! points.Keys {
      forall j | 0 <= j < |documents|
        ensures Copies(points, namespace, documents[j], source, target, embed).Keys !! points.Keys
      {
        forall id | id in Copies(points, namespace, documents[j], source, target, embed) ensures id !in points {
          AllCopiesHas(points, namespace, documents, source, target, embed, documents[j], id);
        }
      }
    }
  }

  lemma {:induction false} TotalDependsOnSource(a: Points, b: Points, namespace: string, documents: seq<DocumentId>,
      n: nat, source: nat)
    requires VersionPart(a, source) == VersionPart(b, source) && n <= |documents|
    ensures ChunkTotal(a, namespace, documents, n, source) == ChunkTotal(b, namespace, documents, n, source)
  {
    if n > 0 {
      TotalDependsOnSource(a, b, namespace, documents, n - 1, source);
      SourceShared(a, b, namespace, documents[n - 1], source);
    }
  }

  /** A state a run leaves can be run again, and has the same work to do. */
  lemma {:induction false} StillRunnable(before: Points, partial: Points, namespace: string,
      documents: seq<DocumentId>, source: nat, target: nat, embed: Embedder)
    requires Runnable(before, namespace, documents, source, target)
    requires ReindexState(before, partial, AllCopies(before, namespace, documents, source, target, embed))
    ensures Runnable(partial, namespace, documents, source, target)
    ensures ChunkTotal(partial, namespace, documents, |documents|, source)
         == ChunkTotal(before, namespace, documents, |documents|, source)
  {
    StateWellNamed(before, partial, namespace, documents, source, target, embed);
    OtherVersionsUntouched(before, partial, namespace, documents, source, target, embed, source);
    AllDistinctDependOnSource(before, partial, namespace, documents, source);
    TotalDependsOnSource(before, partial, namespace, documents, |documents|, source);
  }

  /**
   * A second run on pgvector, over whatever a first one left, meets the primary key as soon as any copy
   * is in place; so after a completed first run that copied anything it always fails.
   */
  lemma {:induction false} PgvectorRerunIff(before: Points, partial: Points, namespace: string,
      documents: seq<DocumentId>, source: nat, target: nat, embed: Embedder)
    requires Runnable(before, namespace, documents, source, target)
    requires ReindexState(before, partial, AllCopies(before, namespace, documents, source, target, embed))
    requires ChunkTotal(before, namespace, documents, |documents|, source) > 0
    ensures var copies := AllCopies(before, namespace, documents, source, target, embed);
      && AllDistinct(partial, namespace, documents, source)
      && (RunProblem(Pgvector, source, partial, namespace, documents, source, target, embed, NO_FAULTS) == None
          <==> copies.Keys !! partial.Keys)
      && (partial == before + copies ==> !(copies.Keys !! partial.Keys))
  {
    var copies := AllCopies(before, namespace, documents, source, target, embed);
    StillRunnable(before, partial, namespace, documents, source, target, embed);
    OtherVersionsUntouched(before, partial, namespace, documents, source, target, embed, source);
    CopiesUpToDependOnSource(before, partial, namespace, documents, |documents|, source, target, embed);
    SmoothRunCompletesIff(Pgvector, partial, namespace, documents, source, target, embed);
    TotalIsSize(before, namespace, documents, |documents|, source);
    assert documents[..|documents|] == documents;
    CopiesMatchOriginals(before, namespace, documents, source, target, embed);
    assert |copies.Keys| == |copies| > 0;
    var id :| id in copies.Keys;
    assert id in before + copies;
  }

  /**
   * On the upsert store, a second run repairs whatever the first one left: the collection ends as one
   * complete run from the start would have made it.
   */
  method RerunReindex(store: VectorStore, first: ReindexJob, second: ReindexJob, documents: seq<DocumentId>,
      embed: Embedder, faults: Faults)
    requires store.Valid() && store.backend.Qdrant? && store.active == first.source && first != second
    requires first.namespace == second.namespace && first.source == second.source && first.target == second.target
    requires Runnable(store.points, first.namespace, documents, first.source, first.target)
    modifies store`points, store`order, first, second
    ensures store.Valid()
    ensures second.status == Completed
       <==> documents == [] || ChunkTotal(old(store.points), first.namespace, documents, |documents|, first.source) > 0
    ensures second.status == Completed ==>
      && store.points
           == old(store.points)
                + AllCopies(old(store.points), first.namespace, documents, first.source, first.target, embed)
      && second.chunksReindexed == ChunkTotal(old(store.points), first.namespace, documents, |documents|, first.source)
  {
    ghost var before := store.points;
    ghost var states := RunReindex(store, first, documents, embed, faults);
    ghost var partial := store.points;
    assert partial in states + [partial];
    StillRunnable(before, partial, first.namespace, documents, first.source, first.target, embed);
    RerunConverges(before, partial, first.namespace, documents, first.source, first.target, embed);
    SmoothRunCompletesIff(Qdrant, partial, first.namespace, documents, first.source, first.target, embed);
    states := RunReindex(store, second, documents, embed, NO_FAULTS);
  }

  /**
   * The documented order of operations: reindex, and only once it completed, switch and then reclaim. A
   * failed reclaim can be repeated.
   */
  method ReindexSwitchReclaim(store: VectorStore, job: ReindexJob, documents: seq<DocumentId>, embed: Embedder,
      faults: Faults, reclaimFails: bool)
    returns (removed: Option<nat>)
    requires store.Valid() && store.active == job.source
    requires Runnable(store.points, job.namespace, documents, job.source, job.target)
    modifies store, job
    ensures store.Valid()
    ensures job.status != Completed ==>
      removed == None && store.active == job.source
         && VersionPart(store.points, job.source) == VersionPart(old(store.points), job.source)
    ensures job.status == Completed ==>
      var full := old(store.points)
           + AllCopies(old(store.points), job.namespace, documents, job.source, job.target, embed);
      && store.active == job.target
      && store.points == (if reclaimFails then full else Reclaimed(full, job.namespace, job.source))
      && removed == (if reclaimFails then None else Some(|OfVersion(old(store.points), job.namespace, job.source)|))
  {
    ghost var before := store.points;
    ghost var states := RunReindex(store, job, documents, embed, faults);
    assert store.points in states + [store.points];
    removed := None;
    if job.status == Completed {
      ghost var after := store.points;
      SameOfVersion(before, after, job.namespace, job.source);
      store.SwitchActive(job.target);
      var r := store.DeleteIndexVersion(job.namespace, job.source, reclaimFails);
      removed := if r.Ok? then Some(r.value) else None;
    }
  }

  lemma {:induction false} SameOfVersion(a: Points, b: Points, namespace: string, version: nat)
    requires VersionPart(a, version) == VersionPart(b, version)
    ensures OfVersion(a, namespace, version) == OfVersion(b, namespace, version)
  {
    forall id ensures id in OfVersion(a, namespace, version) <==> id in OfVersion(b, namespace, version) {
      assert id in VersionPart(a, version) <==> id in VersionPart(b, version);
      if id in VersionPart(a, version) {
        assert VersionPart(a, version)[id] == VersionPart(b, version)[id];
      }
    }
  }

  /**
   * At the end of the lifecycle a document of the job whose target was fresh or overwritten reads back as
   * an exact relabelled copy of what it was, whatever else the namespace holds, and the job's documents have as many
   * points as before, exactly when none of their target ids was taken; from a fresh target none is.
   */
  lemma {:induction false} LifecycleExact(before: Points, namespace: string, documents: seq<DocumentId>, source: nat,
      target: nat, embed: Embedder, document: DocumentId, was: seq<StoredChunk>, now: seq<StoredChunk>)
    requires Runnable(before, namespace, documents, source, target) && document in documents
    requires FreshTarget(before, namespace, documents, target)
       || Overwritten(before, namespace, document, source, target, embed)
    requires IsListing(was, before, namespace, document, source)
    requires IsListing(now, Reclaimed(before + AllCopies(before, namespace, documents, source, target, embed),
                                      namespace, source), namespace, document, target)
    ensures now == Relabelled(before, namespace, document, source, target, was)
    ensures var all := AllCopies(before, namespace, documents, source, target, embed);
      var conserved := |OfDocuments(Reclaimed(before + all, namespace, source), namespace, documents)|
           == |OfDocuments(before, namespace, documents)|;
      && (conserved <==> OfDocuments(before, namespace, documents) !! all.Keys)
      && (FreshTarget(before, namespace, documents, target) ==> conserved)
  {
    if FreshTarget(before, namespace, documents, target) {
      FreshTargetReplaceable(before, namespace, documents, source, target, embed);
    }
    var full := before + AllCopies(before, namespace, documents, source, target, embed);
    var after := Reclaimed(full, namespace, source);
    ReclaimKeepsOthers(full, namespace, source, target);
    ViewsDependOnVersion(full, after, Qdrant, target, namespace, map[]);
    assert IsListing(now, full, namespace, document, target);
    CopyIsExact(before, namespace, documents, source, target, embed, document, was, now);
    TotalConserved(before, namespace, documents, source, target, embed);
  }

  lemma {:induction false} ReclaimKeepsOthers(points: Points, namespace: string, version: nat, other: nat)
    requires version != other
    ensures VersionPart(Reclaimed(points, namespace, version), other) == VersionPart(points, other)
  {
  }
}
