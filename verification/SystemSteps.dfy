/**
 * The operations of a running system: ingests, single and batch deletions, reindex jobs, switches of the
 * served version and reclaims, and the documented procedure that puts a new version in service.
 */
module SystemSteps {
  import opened Support
  import opened ChunkIds
  import opened Chunking
  import opened VectorStores
  import opened ChunkCopies
  import opened Reindex
  import opened ReindexRun
  import opened ReindexLifecycle
  import opened ReindexOutcome
  import opened DocumentTable
  import opened ChunkLinks
  import opened IngestRun
  import opened Ingest
  import opened DocumentDeletion

  datatype Operation =
    | IngestFile(namespace: string, filename: string, content: Content, id: DocumentId, extra: Metadata,
                 faults: IngestFaults)
    | DeleteOne(namespace: string, id: DocumentId, deleteFails: bool, commitFails: bool)
    | DeleteMany(namespace: string, ids: seq<DocumentId>, commitFails: bool, failing: set<DocumentId>)
    | ReindexInto(namespace: string, target: nat, embed: Embedder, jobFaults: Faults)
    | SwitchTo(target: nat)
    | Reclaim(namespace: string, version: nat, fails: bool)

  /** The live documents of a namespace, each once. */
  ghost predicate IsSnapshot(ids: seq<DocumentId>, t: Table, namespace: string) {
    && NoDuplicates(ids)
    && forall d: DocumentId :: d in ids <==> d in t && t[d].deleted == None && t[d].namespace == namespace
  }

  /** The job's snapshot. */
  method LiveDocumentIds(t: Table, namespace: string) returns (ids: seq<DocumentId>)
    ensures IsSnapshot(ids, t, namespace)
  {
    ids := [];
    var left := t.Keys;
    while left != {}
      invariant left <= t.Keys && NoDuplicates(ids)
      invariant forall d: DocumentId :: d in ids <==> d !in left && IsLive(t, d) && t[d].namespace == namespace
      decreases |left|
    {
      var d :| d in left;
      left := left - {d};
      if IsLive(t, d) && t[d].namespace == namespace {
        ids := ids + [d];
      }
    }
  }

  /** In a valid collection every snapshot of live documents can be reindexed. */
  lemma {:induction false} SnapshotRunnable(points: Points, t: Table, namespace: string, ids: seq<DocumentId>,
      active: nat, target: nat)
    requires CollectionValid(points, t, active) && IsSnapshot(ids, t, namespace) && target != active
    ensures Runnable(points, namespace, ids, active, target)
  {
    forall d: DocumentId | d in ids ensures DistinctPositions(points, namespace, d, active) {
      assert DocumentValid(points, t[d].namespace, d, active);
    }
  }

  /** What the status of a job over a snapshot shows: its chunks_reindexed once it completed. */
  ghost function JobOutcome(backend: Backend, points: Points, ids: seq<DocumentId>, active: nat, namespace: string,
      target: nat, embed: Embedder, faults: Faults): Option<nat>
    requires Runnable(points, namespace, ids, active, target)
  {
    if RunProblem(backend, active, points, namespace, ids, active, target, embed, faults) == None
    then Some(ChunkTotal(points, namespace, ids, |ids|, active)) else None
  }

  /** What a job over a snapshot did to the points, and how it ended. */
  ghost predicate Reindexed(a: Points, b: Points, ids: seq<DocumentId>, backend: Backend, active: nat,
      namespace: string, target: nat, embed: Embedder, faults: Faults, outcome: Option<nat>) {
    && Runnable(a, namespace, ids, active, target)
    && b == LastOf(a, JobStates(backend, active, a, namespace, ids, active, target, embed, faults))
    && ReindexState(a, b, AllCopies(a, namespace, ids, active, target, embed))
    && outcome == JobOutcome(backend, a, ids, active, namespace, target, embed, faults)
    && (outcome.Some? ==> b == a + AllCopies(a, namespace, ids, active, target, embed))
  }

  lemma {:induction false} RunReindexed(a: Points, b: Points, states: seq<Points>, ids: seq<DocumentId>,
        backend: Backend, active: nat, namespace: string, target: nat, embed: Embedder, faults: Faults,
        outcome: Option<nat>)
    requires Runnable(a, namespace, ids, active, target)
    requires var all := AllCopies(a, namespace, ids, active, target, embed);
      && states == JobStates(backend, active, a, namespace, ids, active, target, embed, faults)
      && b == LastOf(a, states) && StatesFrom(a, states + [b], all)
      && (outcome.Some? ==> b == a + all)
      && outcome == JobOutcome(backend, a, ids, active, namespace, target, embed, faults)
    ensures Reindexed(a, b, ids, backend, active, namespace, target, embed, faults, outcome)
  {
    assert b in states + [b];
  }

  /**
   * A job over everything live in a namespace, refused when its target is being served. It answers with
   * chunks_reindexed if it completed. Whatever of it fails, the system stays valid, and what the job
   * wrote are chunks of the snapshot embedded anew, all of them if it completed.
   */
  method ReindexAll(ingest: IngestPipeline, namespace: string, target: nat, embed: Embedder, faults: Faults)
    returns (outcome: Option<nat>, ghost ids: seq<DocumentId>)
    requires ingest.Valid()
    modifies ingest.store`points, ingest.store`order
    ensures ingest.Valid() && IsSnapshot(ids, ingest.documents, namespace)
    ensures forall v | v != target :: VersionPart(ingest.store.points, v) == VersionPart(old(ingest.store.points), v)
    ensures if target == ingest.store.active then outcome == None && ingest.store.points == old(ingest.store.points)
            else Reindexed(old(ingest.store.points), ingest.store.points, ids, ingest.store.backend,
                           ingest.store.active, namespace, target, embed, faults, outcome)
    ensures OnlyReembedded(old(ingest.store.points), ingest.store.points, namespace, ids, ingest.store.active, target,
                           embed)
    ensures outcome.Some? ==> AllReembedded(old(ingest.store.points), ingest.store.points, namespace, ids,
                                            ingest.store.active, target, embed)
  {
    hide AllCopies, ReindexState, LastOf, JobStates, StatesFrom, CollectionValid, Reindexed, TableValid, WellNamed,
      IsReembedded, AllReembedded;
    var store := ingest.store;
    ghost var before := store.points;
    var documents := LiveDocumentIds(ingest.documents, namespace);
    ids := documents;
    var accepted := TriggerReindex(namespace, target, store.active);
    if accepted.Err? {
      return None, ids;
    }
    var job := accepted.value;
    SnapshotRunnable(before, ingest.documents, namespace, documents, store.active, target);
    ghost var states := RunReindex(store, job, documents, embed, faults);
    outcome := if job.status == Completed then Some(job.chunksReindexed) else None;
    RunReindexed(before, store.points, states, ids, store.backend, store.active, namespace, target, embed, faults,
                 outcome);
    ReindexedKeeps(before, store.points, ingest.documents, ids, store.backend, store.active, namespace, target, embed,
                   faults, outcome);
  }

  lemma {:induction false} ReindexedKeeps(a: Points, b: Points, t: Table, ids: seq<DocumentId>, backend: Backend,
      active: nat, namespace: string, target: nat, embed: Embedder, faults: Faults, outcome: Option<nat>)
    requires CollectionValid(a, t, active) && IsSnapshot(ids, t, namespace)
    requires Reindexed(a, b, ids, backend, active, namespace, target, embed, faults, outcome)
    ensures CollectionValid(b, t, active)
  {
    ReindexKeepsCollection(a, b, t, namespace, ids, active, target, embed);
  }

  /** Reclaiming a version no longer served, refused for the served one. */
  method ReclaimVersion(ingest: IngestPipeline, namespace: string, version: nat, fails: bool)
    returns (removed: Option<nat>)
    requires ingest.store.Valid()
    modifies ingest.store`points, ingest.store`order
    ensures ingest.store.Valid() && (old(ingest.Valid()) ==> ingest.Valid())
    ensures removed == if version == ingest.store.active || fails then None
                       else Some(|OfVersion(old(ingest.store.points), namespace, version)|)
    ensures ingest.store.points == if removed.Some? then Reclaimed(old(ingest.store.points), namespace, version)
       else old(ingest.store.points)
  {
    ghost var before := ingest.store.points;
    ghost var valid := ingest.Valid();
    var r := ingest.store.DeleteIndexVersion(namespace, version, fails);
    if r.Err? {
      return None;
    }
    if valid {
      ReclaimKeepsCollection(before, ingest.documents, ingest.store.active, namespace, version);
    }
    return Some(r.value);
  }

  // ---- The documented procedure ----

  /** The chunks a count of the namespace covers at the served version. */
  function CountedChunks(backend: Backend, points: Points, active: nat, namespace: string,
        live: LiveDocuments): set<ChunkId> {
    set id | id in points && Counted(backend, points[id], active, Some(namespace), live)
  }

  /**
   * The two numbers an operator compares: a completed job copies at most the chunks counted before it,
   * and exactly as many when every counted chunk belongs to a live document of the namespace. pgvector
   * counts no others; Qdrant also counts those of deleted documents whose chunks are still there.
   */
  lemma {:induction false} NotedAgainstCopied(backend: Backend, points: Points, t: Table, active: nat,
        namespace: string, ids: seq<DocumentId>)
    requires CollectionValid(points, t, active) && IsSnapshot(ids, t, namespace)
    ensures var noted := CountedChunks(backend, points, active, namespace, Live(t));
      var copied := ChunkTotal(points, namespace, ids, |ids|, active);
      && copied <= |noted|
      && (copied == |noted| <==> forall id | id in noted ::
          IsLive(t, points[id].document) && points[id].namespace == namespace)
      && (backend.Pgvector? && namespace != "" ==> copied == |noted|)
  {
    var noted := CountedChunks(backend, points, active, namespace, Live(t));
    var mine := DocumentsAt(points, namespace, ids, active);
    TotalIsSize(points, namespace, ids, |ids|, active);
    assert ids[..|ids|] == ids;
    LiveAreCounted(backend, points, t, active, namespace, ids);
    assert |noted| == |mine| + |noted - mine|;
    if forall id | id in noted :: id in mine {
      assert noted - mine == {};
    } else {
      var id :| id in noted && id !in mine;
      assert id in noted - mine;
    }
  }

  lemma {:induction false} LiveAreCounted(backend: Backend, points: Points, t: Table, active: nat, namespace: string,
      ids: seq<DocumentId>)
    requires Owned(points, t) && IsSnapshot(ids, t, namespace)
    ensures var noted, mine := CountedChunks(backend, points, active, namespace, Live(t)),
                               DocumentsAt(points, namespace, ids, active);
      && mine <= noted
      && (forall id | id in noted ::
          id in mine <==> IsLive(t, points[id].document) && points[id].namespace == namespace)
      && (backend.Pgvector? && namespace != "" ==> noted <= mine)
  {
    forall id | id in points
      ensures points[id].document in t && points[id].namespace == t[points[id].document].namespace
    {
    }
  }

  /** What a switch after a completed job serves: the copies of its documents, and of all others what the target had. */
  lemma {:induction false} SwitchServes(before: Points, t: Table, namespace: string, ids: seq<DocumentId>, source: nat,
      target: nat, embed: Embedder, reclaimed: bool)
    requires CollectionValid(before, t, source) && IsSnapshot(ids, t, namespace)
    requires Runnable(before, namespace, ids, source, target)
    ensures var full := before + AllCopies(before, namespace, ids, source, target, embed);
      var after := if reclaimed then Reclaimed(full, namespace, source) else full;
      && ServesCopies(before, after, namespace, ids, source, target, embed)
      && (forall ns, d | d !in ids :: SamePiece(before, after, ns, d, target))
      && (Replaceable(before, namespace, ids, source, target, embed) ==>
            (CollectionValid(after, t, target)
             <==> forall d | Ingested(t, d) && d !in ids :: DocumentValid(before, t[d].namespace, d, target)))
  {
    hide CollectionValid, Reclaimed, Copies, AllCopies, Overwritten, SamePiece;
    var full := before + AllCopies(before, namespace, ids, source, target, embed);
    var after := if reclaimed then Reclaimed(full, namespace, source) else full;
    ReclaimKeepsOthers(full, namespace, source, target);
    assert VersionPart(after, target) == VersionPart(full, target);
    ServedCopies(before, full, after, namespace, ids, source, target, embed);
    forall ns, d | d !in ids ensures SamePiece(before, after, ns, d, target) {
      OthersServed(before, after, namespace, ids, source, target, embed, ns, d);
    }
    if Replaceable(before, namespace, ids, source, target, embed) {
      ValidAfterSwitch(before, after, t, namespace, ids, source, target, embed, reclaimed);
    }
  }

  /** Reclaiming the old version leaves what a job embedded anew. */
  lemma {:induction false} ReclaimKeepsReembedded(before: Points, full: Points, after: Points, namespace: string,
      ids: seq<DocumentId>, source: nat, target: nat, embed: Embedder)
    requires AllReembedded(before, full, namespace, ids, source, target, embed) && source != target
    requires after == full || after == Reclaimed(full, namespace, source)
    ensures AllReembedded(before, after, namespace, ids, source, target, embed)
  {
    forall x | x in before && before[x].document in ids && At(before[x], namespace, before[x].document, source)
      ensures IsReembedded(before, x, after, TargetChunkId(before[x].document, before[x].position, target), target,
                           embed)
    {
      var id := TargetChunkId(before[x].document, before[x].position, target);
      assert IsReembedded(before, x, full, id, target, embed);
      assert id in after && after[id] == full[id];
    }
  }

  /** Each document of a job whose old target chunks were overwritten lists as its exact relabelled copy. */
  ghost predicate ServesCopies(before: Points, after: Points, namespace: string, ids: seq<DocumentId>, source: nat,
      target: nat, embed: Embedder) {
    forall d, was, now | && d in ids && Overwritten(before, namespace, d, source, target, embed)
                         && IsListing(was, before, namespace, d, source)
                            && IsListing(now, after, namespace, d, target) ::
      now == Relabelled(before, namespace, d, source, target, was)
  }

  lemma {:induction false} ServedCopies(before: Points, full: Points, after: Points, namespace: string,
        ids: seq<DocumentId>, source: nat, target: nat, embed: Embedder)
    requires AllDistinct(before, namespace, ids, source)
    requires full == before + AllCopies(before, namespace, ids, source, target, embed)
    requires VersionPart(after, target) == VersionPart(full, target)
    ensures ServesCopies(before, after, namespace, ids, source, target, embed)
  {
    hide AllCopies, AllDistinct, Overwritten, IsListing, VersionPart;
    ViewsDependOnVersion(full, after, Qdrant, target, namespace, map[]);
    forall d, was, now | && d in ids && Overwritten(before, namespace, d, source, target, embed)
                         && IsListing(was, before, namespace, d, source) && IsListing(now, after, namespace, d, target)
      ensures now == Relabelled(before, namespace, d, source, target, was)
    {
      assert IsListing(now, full, namespace, d, target);
      CopyIsExact(before, namespace, ids, source, target, embed, d, was, now);
    }
  }

  lemma {:induction false} OthersServed(before: Points, after: Points, job: string, ids: seq<DocumentId>, source: nat,
      target: nat, embed: Embedder, namespace: string, d: DocumentId)
    requires WellNamed(before) && AllDistinct(before, job, ids, source) && d !in ids
    requires VersionPart(after, target)
         == VersionPart(before + AllCopies(before, job, ids, source, target, embed), target)
    ensures SamePiece(before, after, namespace, d, target)
  {
    var all := AllCopies(before, job, ids, source, target, embed);
    forall id | id in all ensures all[id].document != d && id.document == all[id].document {
      AllCopiesAt(before, job, ids, source, target, embed, id);
    }
    OutsideUntouched(before, all, namespace, d, target);
    SourceShared(after, before + all, namespace, d, target);
  }

  lemma {:induction false} ValidAfterSwitch(before: Points, after: Points, t: Table, namespace: string,
        ids: seq<DocumentId>, source: nat, target: nat, embed: Embedder, reclaimed: bool)
    requires CollectionValid(before, t, source) && IsSnapshot(ids, t, namespace)
    requires Runnable(before, namespace, ids, source, target)
    requires Replaceable(before, namespace, ids, source, target, embed)
    requires var full := before + AllCopies(before, namespace, ids, source, target, embed);
      after == (if reclaimed then Reclaimed(full, namespace, source) else full)
    ensures CollectionValid(after, t, target)
       <==> forall d | Ingested(t, d) && d !in ids :: DocumentValid(before, t[d].namespace, d, target)
  {
    hide Overwritten, Replaceable, DocumentValid, AllCopies;
    var full := before + AllCopies(before, namespace, ids, source, target, embed);
    CompletedState(before, namespace, ids, source, target, embed);
    ReindexKeepsCollection(before, full, t, namespace, ids, source, target, embed);
    CompletedTargetValid(before, t, namespace, ids, source, target, embed);
    ReclaimKeepsOthers(full, namespace, source, target);
    SameVersionValid(full, after, t, target);
  }

  lemma {:induction false} CompletedState(before: Points, namespace: string, ids: seq<DocumentId>, source: nat,
        target: nat, embed: Embedder)
    requires AllDistinct(before, namespace, ids, source)
    ensures var all := AllCopies(before, namespace, ids, source, target, embed); ReindexState(before, before + all, all)
  {
  }

  /** Validity of a version depends on its points alone. */
  lemma {:induction false} SameVersionValid(a: Points, b: Points, t: Table, version: nat)
    requires VersionPart(a, version) == VersionPart(b, version)
    ensures VersionValid(a, t, version) <==> VersionValid(b, t, version)
  {
    forall d | Ingested(t, d)
      ensures DocumentValid(a, t[d].namespace, d, version) <==> DocumentValid(b, t[d].namespace, d, version)
    {
      SourceShared(a, b, t[d].namespace, d, version);
      if DocumentValid(a, t[d].namespace, d, version) {
        DocumentValidSame(a, b, t[d].namespace, d, version);
      }
      if DocumentValid(b, t[d].namespace, d, version) {
        DocumentValidSame(b, a, t[d].namespace, d, version);
      }
    }
  }

  /**
   * The documented procedure: note the namespace's chunk count, reindex everything live, and only if the
   * job completed and the operator accepts chunks_reindexed against the count, switch and then reclaim.
   * Otherwise the served version is as it was. After a switch every chunk of the job's documents stands at
   * the served version with the vector of its text; documents outside the job, other
   * namespaces' included, have what the target already held: from a fresh target, nothing.
   */
  method SwitchOver(ingest: IngestPipeline, namespace: string, target: nat, embed: Embedder, faults: Faults,
      accepts: (nat, nat) -> bool, reclaimFails: bool)
    returns (noted: nat, switched: bool, ghost ids: seq<DocumentId>)
    requires ingest.Valid()
    modifies ingest.store`active, ingest.store`points, ingest.store`order
    ensures ingest.store.Valid() && IsSnapshot(ids, ingest.documents, namespace)
    ensures noted
         == |CountedChunks(ingest.store.backend, old(ingest.store.points), old(ingest.store.active), namespace,
                           Live(ingest.documents))|
    ensures target == old(ingest.store.active) ==> !switched && ingest.store.points == old(ingest.store.points)
    ensures target != old(ingest.store.active) ==>
      var before, source := old(ingest.store.points), old(ingest.store.active);
      && Runnable(before, namespace, ids, source, target)
      && var outcome := JobOutcome(ingest.store.backend, before, ids, source, namespace, target, embed, faults);
      && (switched <==> outcome.Some? && accepts(noted, outcome.value))
    ensures !switched ==> && ingest.Valid() && ingest.store.active == old(ingest.store.active)
                          && forall v | v != target ::
                            VersionPart(ingest.store.points, v) == VersionPart(old(ingest.store.points), v)
    ensures switched ==>
      var before, source, t := old(ingest.store.points), old(ingest.store.active), ingest.documents;
      var full := before + AllCopies(before, namespace, ids, source, target, embed);
      && ingest.store.active == target
      && ingest.store.points == (if reclaimFails then full else Reclaimed(full, namespace, source))
      && AllReembedded(before, ingest.store.points, namespace, ids, source, target, embed)
      && ServesCopies(before, ingest.store.points, namespace, ids, source, target, embed)
      && (forall ns, d | d !in ids :: SamePiece(before, ingest.store.points, ns, d, target))
      && (Replaceable(before, namespace, ids, source, target, embed) ==>
            (ingest.Valid() <==> forall d | Ingested(t, d) && d !in ids ::
             DocumentValid(before, t[d].namespace, d, target)))
  {
    hide IsSnapshot, CollectionValid, AllCopies, ReindexState, JobStates, LastOf, JobOutcome, Reclaimed, ServesCopies,
      SamePiece, Replaceable, CountedChunks, VersionPart, TableValid, OnlyReembedded, AllReembedded;
    ghost var before := ingest.store.points;
    var source := ingest.store.active;
    noted := CountNamespace(ingest, namespace);
    var outcome;
    outcome, ids := ReindexAll(ingest, namespace, target, embed, faults);
    switched := outcome.Some? && accepts(noted, outcome.value);
    if switched {
      SwitchServes(before, ingest.documents, namespace, ids, source, target, embed, !reclaimFails);
      ingest.store.SwitchActive(target);
      ghost var full := ingest.store.points;
      var removed := ReclaimVersion(ingest, namespace, source, reclaimFails);
      ReclaimKeepsReembedded(before, full, ingest.store.points, namespace, ids, source, target, embed);
    }
  }

  method CountNamespace(ingest: IngestPipeline, namespace: string) returns (n: nat)
    requires ingest.store.Valid()
    ensures n == |CountedChunks(ingest.store.backend, ingest.store.points, ingest.store.active, namespace,
                                Live(ingest.documents))|
  {
    n := ingest.store.CountChunks(Some(namespace), Live(ingest.documents));
  }

  // ---- One operation ----

  ghost predicate IsIngest(op: Operation) {
    op.IngestFile?
  }

  /** What lies in the database and the store between two operations. */
  datatype Moment = Moment(documents: Table, points: Points, active: nat)

  /** What an ingest made of the moment before it. */
  ghost predicate LedIngest(s: Moment, r: Moment, backend: Backend, p: Processing, namespace: string, filename: string,
      content: Content, id: DocumentId, extra: Metadata, faults: IngestFaults)
    requires UniqueLive(s.documents)
  {
    && id !in s.documents
    && r.documents == LastTable(s.documents, IngestTables(s.documents, p, namespace, filename, content, id, faults))
    && (Known(s.documents, namespace, filename, content.hash) ==> r == s)
    && if IngestProblem(s.documents, p, namespace, filename, content, faults) == None
       then Known(r.documents, namespace, filename, content.hash)
            && exists answer ::
              IngestDone(s.documents, r.documents, s.points, r.points, p, s.active, namespace, filename, content, id,
                         extra, faults, answer)
       else (SameLive(s.documents, r.documents) <==> LiveRowsReturn(s.documents, namespace, filename, content, faults))
            && OnlyGained(s.points, r.points, namespace, s.active, id)
            && (!LeavesResidue(backend, faults.store) ==> r.points == s.points)
  }

  /** What a reindex job made of the moment before it. */
  ghost predicate LedReindex(s: Moment, r: Moment, outcome: Option<nat>, backend: Backend, namespace: string,
        target: nat, embed: Embedder, faults: Faults) {
    && r.documents == s.documents
    && (forall v | v != target :: VersionPart(r.points, v) == VersionPart(s.points, v))
    && if target == s.active then r.points == s.points && outcome == None
       else exists ids :: && IsSnapshot(ids, s.documents, namespace)
                          && Reindexed(s.points, r.points, ids, backend, s.active, namespace, target, embed, faults,
                                       outcome)
  }

  /** What an operation made of the moment before it; `outcome` is what the status of a job shows. */
  ghost predicate Led(s: Moment, op: Operation, r: Moment, outcome: Option<nat>, backend: Backend, p: Processing)
  {
    && UniqueLive(s.documents) && (op.SwitchTo? || r.active == s.active) && (op.ReindexInto? || outcome == None)
    && match op
       case IngestFile(namespace, filename, content, id, extra, faults) =>
         LedIngest(s, r, backend, p, namespace, filename, content, id, extra, faults)
       case DeleteOne(namespace, id, deleteFails, commitFails) =>
         && r.points == (if deleteFails then s.points else s.points - PointsOf(s.points, namespace, id))
         && r.documents == if !deleteFails && !commitFails && Deletable(s.documents, namespace, id)
            then SoftDelete(s.documents, id, UserRequest) else s.documents
       case DeleteMany(namespace, ids, commitFails, failing) =>
         var deleted := if commitFails then [] else DeletedOf(s.documents, namespace, ids);
         r == Moment(SoftDeleteAll(s.documents, deleted), s.points - Cleared(s.points, namespace, deleted, failing),
                     s.active)
       case ReindexInto(namespace, target, embed, faults) =>
         LedReindex(s, r, outcome, backend, namespace, target, embed, faults)
       case SwitchTo(target) => r == s.(active := target)
       case Reclaim(namespace, version, fails) =>
         r == s.(points := if version == s.active || fails then s.points else Reclaimed(s.points, namespace, version))
  }

  ghost function Now(ingest: IngestPipeline): Moment
    reads ingest, ingest.store
  {
    Moment(ingest.documents, ingest.store.points, ingest.store.active)
  }

  /** What an operation needs to keep the system valid. */
  ghost predicate Keeping(op: Operation, s: Moment, backend: Backend) {
    match op
    case IngestFile(_, _, _, id, _, faults) =>
      id !in s.documents && !(faults.cleanupFails && LeavesResidue(backend, faults.store))
    case SwitchTo(target) => VersionValid(s.points, s.documents, target)
    case _ => true
  }

  /**
   * One operation, whatever of it fails, does what it should; a switch to a valid version, and anything
   * else, keeps the system valid.
   */
  method Perform(ingest: IngestPipeline, op: Operation) returns (outcome: Option<nat>)
    requires ingest.Valid() && Keeping(op, Now(ingest), ingest.store.backend)
    modifies ingest`documents, ingest.store`active, ingest.store`points, ingest.store`order
    ensures ingest.Valid()
    ensures Led(old(Now(ingest)), op, Now(ingest), outcome, ingest.store.backend, ingest.processing)
    ensures forall d: DocumentId | d in ingest.documents :: d in old(ingest.documents) || (IsIngest(op) && d == op.id)
  {
    hide UniqueLive, RowValid, SearchView, IngestProblem, IngestDone, LiveRowsReturn, Known, SameLive, OnlyGained,
      Reindexed, IsSnapshot, VersionValid, LastTable, IngestTables, WellNamed, Owned, OnlyReembedded, AllReembedded;
    outcome := None;
    match op
    case IngestFile(namespace, filename, content, id, extra, faults) =>
      var r; ghost var tables;
      r, tables := ingest.RunIngest(namespace, filename, content, id, extra, faults);
    case DeleteOne(namespace, id, deleteFails, commitFails) =>
      var removed := DeleteDocument(ingest, namespace, id, deleteFails, commitFails);
    case DeleteMany(namespace, ids, commitFails, failing) =>
      var deleted, missing := BatchDelete(ingest, namespace, ids, commitFails, failing);
      SameRows(old(ingest.documents), deleted);
    case ReindexInto(namespace, target, embed, faults) =>
      ghost var ids;
      outcome, ids := ReindexAll(ingest, namespace, target, embed, faults);
    case SwitchTo(target) =>
      ingest.store.SwitchActive(target);
    case Reclaim(namespace, version, fails) =>
      var removed := ReclaimVersion(ingest, namespace, version, fails);
  }

  lemma {:induction false} SameRows(t: Table, ids: seq<DocumentId>)
    ensures SoftDeleteAll(t, ids).Keys == t.Keys
  {
    if ids != [] {
      SameRows(t, ids[..|ids| - 1]);
    }
  }

  ghost predicate MomentValid(s: Moment) {
    TableValid(s.documents) && CollectionValid(s.points, s.documents, s.active)
  }
}
