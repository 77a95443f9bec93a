/**
 * Whole runs of the system, any step of any operation failing: what holds at every moment of a run, and
 * what a version serves once a completed job filled it.
 */
module SystemRuns {
  import opened Support
  import opened ChunkIds
  import opened VectorStores
  import opened ChunkCopies
  import opened Reindex
  import opened ReindexRun
  import opened ReindexOutcome
  import opened DocumentTable
  import opened ChunkLinks
  import opened IngestRun
  import opened Ingest
  import opened SystemSteps
  import opened Ledgers

  /** The ledger after the first n operations. */
  function LedgerAt(start: Ledger, ops: seq<Operation>, n: nat, backend: Backend): Ledger
    requires n <= |ops|
  {
    if n == 0 then start else Noted(LedgerAt(start, ops, n - 1, backend), ops[n - 1], backend)
  }

  /** New row ids are new, and each operation is permitted by the ledger kept up to it. */
  ghost predicate Admissible(ops: seq<Operation>, start: Ledger, backend: Backend) {
    && (forall i | 0 <= i < |ops| :: Permitted(LedgerAt(start, ops, i, backend), ops[i], backend))
    && forall i, j | 0 <= i < j < |ops| && IsIngest(ops[i]) && IsIngest(ops[j]) :: ops[i].id != ops[j].id
  }

  /**
   * A run of the first n operations: at every moment the ledger is right, and each moment is what its
   * operation makes of the one before.
   */
  ghost predicate IsRun(trace: seq<Moment>, ops: seq<Operation>, n: nat, outcomes: seq<Option<nat>>, start: Ledger,
      backend: Backend, p: Processing)
    requires n <= |ops|
  {
    && |trace| == n + 1 && |outcomes| == n
    && (forall i | 0 <= i <= n :: Sound(trace[i], LedgerAt(start, ops, i, backend)))
    && forall i | 0 <= i < n :: Led(trace[i], ops[i], trace[i + 1], outcomes[i], backend, p)
  }

  lemma {:induction false} OneMoreOperation(trace: seq<Moment>, ops: seq<Operation>, n: nat, outcomes: seq<Option<nat>>,
      start: Ledger, backend: Backend, p: Processing, r: Moment, outcome: Option<nat>)
    requires n < |ops| && IsRun(trace, ops, n, outcomes, start, backend, p)
    requires Permitted(LedgerAt(start, ops, n, backend), ops[n], backend) && MomentValid(r)
    requires Led(trace[n], ops[n], r, outcome, backend, p)
    ensures IsRun(trace + [r], ops, n + 1, outcomes + [outcome], start, backend, p)
  {
    hide Sound, Led, Noted, Permitted, MomentValid;
    LedKeepsSound(trace[n], ops[n], r, outcome, LedgerAt(start, ops, n, backend), backend, p);
  }

  lemma {:induction false} PermittedKeeps(s: Moment, l: Ledger, op: Operation, backend: Backend)
    requires Sound(s, l) && Permitted(l, op, backend) && (IsIngest(op) ==> op.id !in s.documents)
    ensures Keeping(op, s, backend)
  {
    if op.SwitchTo? {
      SoundVersionValid(s, l, op.target);
    }
  }

  /**
   * Any run from any valid state, for which there always is a ledger. Versions are switched without a
   * look at the collection, by the ledger alone; still, at every moment both indexes hold, versions count
   * up from the rows they supersede and every searchable child of an ingested row leads to its parent.
   */
  method RunOperations(ingest: IngestPipeline, ops: seq<Operation>, ghost start: Ledger)
    returns (outcomes: seq<Option<nat>>, ghost trace: seq<Moment>)
    requires ingest.Valid() && Sound(Now(ingest), start) && Admissible(ops, start, ingest.store.backend)
    requires forall i | 0 <= i < |ops| && IsIngest(ops[i]) :: ops[i].id !in ingest.documents
    modifies ingest`documents, ingest.store`active, ingest.store`points, ingest.store`order
    ensures IsRun(trace, ops, |ops|, outcomes, start, ingest.store.backend, ingest.processing)
    ensures trace[0] == old(Now(ingest)) && ingest.Valid() && trace[|ops|] == Now(ingest)
    ensures forall i | 0 <= i <= |ops| :: MomentValid(trace[i])
  {
    hide TableValid, CollectionValid, LeavesResidue, Led, Sound, Keeping, Permitted, Noted;
    outcomes, trace := [], [Now(ingest)];
    for n := 0 to |ops|
      invariant ingest.Valid() && forall i | n <= i < |ops| && IsIngest(ops[i]) :: ops[i].id !in ingest.documents
      invariant IsRun(trace, ops, n, outcomes, start, ingest.store.backend, ingest.processing)
      invariant trace[0] == old(Now(ingest)) && trace[n] == Now(ingest)
      invariant forall i | 0 <= i <= n :: MomentValid(trace[i])
    {
      PermittedKeeps(trace[n], LedgerAt(start, ops, n, ingest.store.backend), ops[n], ingest.store.backend);
      var outcome := Perform(ingest, ops[n]);
      OneMoreOperation(trace, ops, n, outcomes, start, ingest.store.backend, ingest.processing, Now(ingest), outcome);
      outcomes, trace := outcomes + [outcome], trace + [Now(ingest)];
    }
  }

  // ---- What a version serves ----

  /** Does the operation write nothing to this version of the namespace? */
  predicate LeavesAlone(op: Operation, namespace: string, version: nat) {
    match op
    case IngestFile(other, _, _, _, _, _) => other != namespace
    case DeleteOne(other, _, _, _) => other != namespace
    case DeleteMany(other, _, _, _) => other != namespace
    case ReindexInto(other, target, _, _) => other != namespace || target != version
    case SwitchTo(_) => true
    case Reclaim(other, reclaimed, _) => other != namespace || reclaimed != version
  }

  lemma {:induction false} IngestLeavesAlone(s: Moment, r: Moment, job: string, id: DocumentId, namespace: string,
      d: DocumentId, version: nat)
    requires IngestMove(s, r, job, id) && job != namespace
    ensures SamePiece(s.points, r.points, namespace, d, version)
  {
  }

  lemma {:induction false} JobLeavesAlone(s: Moment, op: Operation, r: Moment, outcome: Option<nat>, l: Ledger,
      backend: Backend, p: Processing, namespace: string, d: DocumentId, version: nat)
    requires op.ReindexInto? && Sound(s, l) && Led(s, op, r, outcome, backend, p) && LeavesAlone(op, namespace, version)
    ensures SamePiece(s.points, r.points, namespace, d, version)
  {
    hide TableValid, DocumentsSound, Reindexed, VersionPart, WellNamed, Owned;
    if op.target != version {
      SourceShared(s.points, r.points, namespace, d, version);
    } else if op.target != s.active {
      var ids :| IsSnapshot(ids, s.documents, op.namespace)
                 && Reindexed(s.points, r.points, ids, backend, s.active, op.namespace, op.target, op.embed,
                              op.jobFaults, outcome);
      JobInOtherNamespace(s, r, ids, outcome, backend, op.namespace, op.target, op.embed, op.jobFaults, namespace, d,
                          version);
    } else {
      SamePoints(s.points, namespace, d, version);
    }
  }

  lemma {:induction false} SamePoints(points: Points, namespace: string, d: DocumentId, version: nat)
    ensures SamePiece(points, points, namespace, d, version)
  {
  }

  /** A document's points carry its row's namespace, so a job cannot touch a piece under another one. */
  lemma {:induction false} JobInOtherNamespace(s: Moment, r: Moment, ids: seq<DocumentId>, outcome: Option<nat>,
        backend: Backend, job: string, target: nat, embed: Embedder, faults: Faults, namespace: string, d: DocumentId,
        version: nat)
    requires Owned(s.points, s.documents) && IsSnapshot(ids, s.documents, job) && job != namespace
    requires Reindexed(s.points, r.points, ids, backend, s.active, job, target, embed, faults, outcome)
    ensures SamePiece(s.points, r.points, namespace, d, version)
  {
    hide ReindexState, WellNamed, JobStates, JobOutcome, AllCopies, SamePiece;
    if d in ids {
      NothingUnder(s.points, r.points, s.documents, job, ids, s.active, target, embed, namespace, d, version);
    } else {
      OthersUntouched(s.points, r.points, job, ids, s.active, target, embed, namespace, d, version);
    }
  }

  lemma {:induction false} NothingUnder(a: Points, b: Points, t: Table, job: string, ids: seq<DocumentId>, source: nat,
      target: nat, embed: Embedder, namespace: string, d: DocumentId, version: nat)
    requires Owned(a, t) && IsLive(t, d) && t[d].namespace == job != namespace
    requires AllDistinct(a, job, ids, source)
    requires ReindexState(a, b, AllCopies(a, job, ids, source, target, embed))
    ensures SamePiece(a, b, namespace, d, version)
  {
    var all := AllCopies(a, job, ids, source, target, embed);
    forall id ensures id !in Matching(b, namespace, d, version) {
      if id in all {
        AllCopiesAt(a, job, ids, source, target, embed, id);
      } else {
        AgreeAt(a, b, all.Keys, id);
      }
    }
  }

  lemma {:induction false} LeftAlone(s: Moment, op: Operation, r: Moment, outcome: Option<nat>, l: Ledger,
        backend: Backend, p: Processing, namespace: string, d: DocumentId, version: nat)
    requires Sound(s, l) && Led(s, op, r, outcome, backend, p) && LeavesAlone(op, namespace, version)
    ensures SamePiece(s.points, r.points, namespace, d, version)
  {
    hide TableValid, WellNamed, Owned, DocumentsSound, ReindexedElsewhere, LedIngest, LedReindex, IngestMove;
    match op
    case IngestFile(job, filename, content, id, extra, faults) =>
      SoundIsValid(s, l);
      IngestMoves(s, r, backend, p, job, filename, content, id, extra, faults);
      IngestLeavesAlone(s, r, job, id, namespace, d, version);
    case ReindexInto(_, _, _, _) => JobLeavesAlone(s, op, r, outcome, l, backend, p, namespace, d, version);
    case _ =>
  }

  /** From moment i on, as long as operations leave a version of a namespace alone, it holds the same. */
  lemma {:induction false} StaysServed(trace: seq<Moment>, ops: seq<Operation>, outcomes: seq<Option<nat>>,
        start: Ledger, backend: Backend, p: Processing, i: nat, j: nat, namespace: string, d: DocumentId, version: nat)
    requires IsRun(trace, ops, |ops|, outcomes, start, backend, p) && i <= j <= |ops|
    requires forall k | i <= k < j :: LeavesAlone(ops[k], namespace, version)
    ensures SamePiece(trace[i].points, trace[j].points, namespace, d, version)
    decreases j - i
  {
    hide Sound, Led, LeavesAlone, Noted;
    if i == j {
      SamePoints(trace[i].points, namespace, d, version);
    } else {
      StaysServed(trace, ops, outcomes, start, backend, p, i, j - 1, namespace, d, version);
      assert Sound(trace[j - 1], LedgerAt(start, ops, j - 1, backend));
      LeftAlone(trace[j - 1], ops[j - 1], trace[j], outcomes[j - 1], LedgerAt(start, ops, j - 1, backend), backend, p,
                namespace, d, version);
    }
  }

  lemma {:induction false} SamePieceLists(a: Points, b: Points, namespace: string, d: DocumentId, version: nat,
        r: seq<StoredChunk>)
    requires SamePiece(a, b, namespace, d, version) && IsListing(r, b, namespace, d, version)
    ensures IsListing(r, a, namespace, d, version)
  {
  }

  /** The copies of a completed job into a version in one piece that no ingest wrote to. */
  lemma {:induction false} CompletedJobCopies(s: Moment, op: Operation, r: Moment, outcome: Option<nat>, l: Ledger,
      backend: Backend, p: Processing, d: DocumentId, was: seq<StoredChunk>, now: seq<StoredChunk>)
    requires op.ReindexInto? && outcome.Some? && Sound(s, l) && Led(s, op, r, outcome, backend, p)
    requires (op.namespace, op.target) !in l.ingested && (op.namespace, op.target) !in l.partial
    requires IsLive(s.documents, d) && s.documents[d].namespace == op.namespace
    requires IsListing(was, s.points, op.namespace, d, s.active) && was != []
    requires IsListing(now, r.points, op.namespace, d, op.target)
    ensures now == Relabelled(s.points, op.namespace, d, s.active, op.target, was)
  {
    hide TableValid, DocumentSound, IsListing, JobOutcome, JobStates, ReindexState, Overwritten, WellNamed, Owned,
      VersionPart, AllCopies;
    var ids :| IsSnapshot(ids, s.documents, op.namespace)
               && Reindexed(s.points, r.points, ids, backend, s.active, op.namespace, op.target, op.embed, op.jobFaults,
                            outcome);
    SoundOverwritten(s, l, op.namespace, op.target, op.embed, d, was);
    CopyIsExact(s.points, op.namespace, ids, s.active, op.target, op.embed, d, was, now);
  }

  /** A completed job embedded anew every chunk the live documents of the namespace had at the served version. */
  lemma {:induction false} CompletedJobReembeds(s: Moment, op: Operation, r: Moment, outcome: Option<nat>,
      backend: Backend, p: Processing, x: ChunkId)
    requires op.ReindexInto? && outcome.Some? && Led(s, op, r, outcome, backend, p)
    requires x in s.points && IsLive(s.documents, s.points[x].document)
    requires s.documents[s.points[x].document].namespace == op.namespace
    requires At(s.points[x], op.namespace, s.points[x].document, s.active)
    ensures IsReembedded(s.points, x, r.points, TargetChunkId(s.points[x].document, s.points[x].position, op.target),
                         op.target, op.embed)
  {
    hide JobOutcome, JobStates, ReindexState, WellNamed, VersionPart, AllCopies, IsReembedded;
    var ids :| IsSnapshot(ids, s.documents, op.namespace)
               && Reindexed(s.points, r.points, ids, backend, s.active, op.namespace, op.target, op.embed, op.jobFaults,
                            outcome);
    CompleteReembeds(s.points, r.points, op.namespace, ids, s.active, op.target, op.embed);
  }

  lemma {:induction false} SamePieceReembedded(before: Points, a: Points, b: Points, namespace: string, x: ChunkId,
      target: nat, embed: Embedder)
    requires x in before && before[x].namespace == namespace
    requires SamePiece(a, b, namespace, before[x].document, target)
    requires IsReembedded(before, x, a, TargetChunkId(before[x].document, before[x].position, target), target, embed)
    ensures IsReembedded(before, x, b, TargetChunkId(before[x].document, before[x].position, target), target, embed)
  {
    assert TargetChunkId(before[x].document, before[x].position, target)
           in Matching(a, namespace, before[x].document, target);
  }

  lemma {:induction false} SoundOverwritten(s: Moment, l: Ledger, namespace: string, target: nat, embed: Embedder,
        d: DocumentId, was: seq<StoredChunk>)
    requires Sound(s, l) && Ingested(s.documents, d) && s.documents[d].namespace == namespace
    requires (namespace, target) !in l.ingested && (namespace, target) !in l.partial
    requires IsListing(was, s.points, namespace, d, s.active) && was != []
    ensures Overwritten(s.points, namespace, d, s.active, target, embed)
  {
    hide TableValid, Owned, WellNamed, Overwritten, DistinctPositions, Linked, SamePositions;
    assert was[0] in was && was[0].id in Matching(s.points, namespace, d, s.active);
    assert DocumentSound(s.points, namespace, d, l.partial);
    assert (namespace, s.active) !in l.partial;
    assert DocumentValid(s.points, namespace, d, s.active) && SamePositions(s.points, namespace, d, s.active, target);
    TargetIsReindexed(s.points, namespace, d, target, l.ingested);
    ReindexedIsOverwritten(s.points, namespace, d, s.active, target, embed);
  }

  /**
   * The point of the procedure, over any run: once a job completed into a version that the ledger shows
   * free of ingests and in one piece, then at every later moment up to the next operation that writes to
   * it, the version lists each live document of the job's snapshot as its exact relabelled copy, and holds
   * each of its chunks with the vector the job's embedder gives for the text. So that is what a switch to
   * it serves, before and after the old version is reclaimed.
   */
  lemma {:induction false} CompletedJobServes(trace: seq<Moment>, ops: seq<Operation>, outcomes: seq<Option<nat>>,
      start: Ledger, backend: Backend, p: Processing, i: nat, j: nat, d: DocumentId, was: seq<StoredChunk>,
      now: seq<StoredChunk>)
    requires IsRun(trace, ops, |ops|, outcomes, start, backend, p) && i < j <= |ops|
    requires ops[i].ReindexInto? && outcomes[i].Some?
    requires var l := LedgerAt(start, ops, i, backend); var pair := (ops[i].namespace, ops[i].target);
      pair !in l.ingested && pair !in l.partial
    requires forall k | i < k < j :: LeavesAlone(ops[k], ops[i].namespace, ops[i].target)
    requires IsLive(trace[i].documents, d) && trace[i].documents[d].namespace == ops[i].namespace
    requires IsListing(was, trace[i].points, ops[i].namespace, d, trace[i].active) && was != []
    requires IsListing(now, trace[j].points, ops[i].namespace, d, ops[i].target)
    ensures now == Relabelled(trace[i].points, ops[i].namespace, d, trace[i].active, ops[i].target, was)
    ensures forall x | x in trace[i].points && At(trace[i].points[x], ops[i].namespace, d, trace[i].active) ::
      IsReembedded(trace[i].points, x, trace[j].points,
                   TargetChunkId(d, trace[i].points[x].position, ops[i].target), ops[i].target, ops[i].embed)
  {
    hide Sound, Led, IsListing, SamePiece, LeavesAlone, Noted, IsReembedded;
    var op := ops[i];
    StaysServed(trace, ops, outcomes, start, backend, p, i + 1, j, op.namespace, d, op.target);
    SamePieceLists(trace[i + 1].points, trace[j].points, op.namespace, d, op.target, now);
    CompletedJobCopies(trace[i], op, trace[i + 1], outcomes[i], LedgerAt(start, ops, i, backend), backend, p, d, was,
                       now);
    forall x | x in trace[i].points && At(trace[i].points[x], op.namespace, d, trace[i].active)
      ensures IsReembedded(trace[i].points, x, trace[j].points,
                           TargetChunkId(d, trace[i].points[x].position, op.target), op.target, op.embed)
    {
      CompletedJobReembeds(trace[i], op, trace[i + 1], outcomes[i], backend, p, x);
      SamePieceReembedded(trace[i].points, trace[i + 1].points, trace[j].points, op.namespace, x, op.target, op.embed);
    }
  }
}
