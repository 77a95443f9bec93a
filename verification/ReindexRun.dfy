/** The whole background job over its snapshot of documents, and what every run of it guarantees. */
module ReindexRun {
  import opened Support
  import opened ChunkIds
  import opened VectorStores
  import opened ChunkCopies
  import opened Embedding
  import opened Reindex

  /** The problem of document k's step, were it to start from `points`. */
  ghost function ProblemAt(backend: Backend, points: Points, namespace: string, documents: seq<DocumentId>, k: nat,
      source: nat, target: nat, embed: Embedder, fault: DocumentFault): Option<ReindexError>
    requires k < |documents| && AllDistinct(points, namespace, documents, source)
  {
    DocumentProblem(backend, points, |Matching(points, namespace, documents[k], source)|,
                    Copies(points, namespace, documents[k], source, target, embed), fault)
  }

  /** The first document from k on whose step fails, by its error. */
  ghost function FirstProblem(backend: Backend, points: Points, namespace: string, documents: seq<DocumentId>, k: nat,
      source: nat, target: nat, embed: Embedder, faults: Faults): Option<ReindexError>
    requires k <= |documents| && AllDistinct(points, namespace, documents, source)
    decreases |documents| - k
  {
    if k == |documents| then None
    else
      var fault := FaultAt(faults, k);
      var problem := IterationProblem(backend, points, namespace, documents, k, source, target, embed, fault);
      if problem.Some? then problem
      else FirstProblem(backend, points, namespace, documents, k + 1, source, target, embed, faults)
  }

  /** Why a run ends as failed, None when it completes. */
  ghost function RunProblem(backend: Backend, active: nat, points: Points, namespace: string,
      documents: seq<DocumentId>, source: nat, target: nat, embed: Embedder, faults: Faults): Option<ReindexError>
    requires AllDistinct(points, namespace, documents, source)
  {
    if faults.setupFails then Some(DatabaseFailed)
    else if faults.providerMissing then Some(ProviderMissing)
    else if source != active then Some(WrongSourceVersion)
    else
      var problem := FirstProblem(backend, points, namespace, documents, 0, source, target, embed, faults);
      if problem.Some? then problem
      else if |documents| > 0 && ChunkTotal(points, namespace, documents, |documents|, source) == 0
         then Some(NothingStored)
      else if faults.completionFails then Some(DatabaseFailed)
      else None
  }

  /** What the copies of document i meet after the documents before it have been copied. */
  lemma {:induction false} StepFacts(before: Points, now: Points, namespace: string, documents: seq<DocumentId>,
      i: nat, source: nat, target: nat, embed: Embedder)
    requires WellNamed(before) && AllDistinct(before, namespace, documents, source) && source != target
    requires i < |documents| && NoDuplicates(documents)
    requires now == before + CopiesUpTo(before, namespace, documents, i, source, target, embed)
    requires ReindexState(before, now, AllCopies(before, namespace, documents, source, target, embed))
    ensures WellNamed(now) && VersionPart(now, source) == VersionPart(before, source)
    ensures DistinctPositions(now, namespace, documents[i], source)
    ensures Matching(now, namespace, documents[i], source) == Matching(before, namespace, documents[i], source)
    ensures var copies := Copies(before, namespace, documents[i], source, target, embed);
      && Copies(now, namespace, documents[i], source, target, embed) == copies
      && (forall id | id in copies :: id in AllCopies(before, namespace, documents, source, target, embed)
                                      && AllCopies(before, namespace, documents, source, target, embed)[id]
                                           == copies[id])
      && (copies.Keys !! now.Keys <==> copies.Keys !! before.Keys)
      && now + copies == before + CopiesUpTo(before, namespace, documents, i + 1, source, target, embed)
  {
    var copies := Copies(before, namespace, documents[i], source, target, embed);
    StateWellNamed(before, now, namespace, documents, source, target, embed);
    OtherVersionsUntouched(before, now, namespace, documents, source, target, embed, source);
    CopiesDependOnSource(before, now, namespace, documents[i], source, target, embed);
    forall id | id in copies
      ensures id in AllCopies(before, namespace, documents, source, target, embed)
      ensures AllCopies(before, namespace, documents, source, target, embed)[id] == copies[id]
    {
      AllCopiesHas(before, namespace, documents, source, target, embed, documents[i], id);
    }
    forall id | id in copies ensures id !in CopiesUpTo(before, namespace, documents, i, source, target, embed) {
      CopyDocument(before, namespace, documents[i], source, target, embed, id);
      NotCopiedYet(before, namespace, documents, i, source, target, embed, id);
    }
    AddCopies(before, CopiesUpTo(before, namespace, documents, i, source, target, embed), copies, now);
  }

  lemma {:induction false} AddCopies(before: Points, done: Points, copies: Points, now: Points)
    requires now == before + done && copies.Keys !! done.Keys
    ensures (copies.Keys !! now.Keys <==> copies.Keys !! before.Keys)
    ensures now + copies == before + (done + copies)
  {
  }

  lemma {:induction false} ProblemSame(backend: Backend, a: Points, b: Points, count: nat, copies: Points,
      fault: DocumentFault)
    requires copies.Keys !! a.Keys <==> copies.Keys !! b.Keys
    ensures DocumentProblem(backend, a, count, copies, fault) == DocumentProblem(backend, b, count, copies, fault)
  {
  }

  lemma {:induction false} NotCopiedYet(before: Points, namespace: string, documents: seq<DocumentId>, i: nat,
      source: nat, target: nat, embed: Embedder, id: ChunkId)
    requires AllDistinct(before, namespace, documents, source) && i < |documents| && NoDuplicates(documents)
    requires id.document == documents[i]
    ensures id !in CopiesUpTo(before, namespace, documents, i, source, target, embed)
  {
    if id in CopiesUpTo(before, namespace, documents, i, source, target, embed) {
      CopiesUpToAt(before, namespace, documents, i, source, target, embed, id);
    }
  }

  /** What a run needs of the collection and its snapshot of documents. */
  ghost predicate Runnable(before: Points, namespace: string, documents: seq<DocumentId>, source: nat, target: nat) {
    WellNamed(before) && AllDistinct(before, namespace, documents, source) && source != target
       && NoDuplicates(documents)
  }

  /** A state between two documents: the first i are copied, everything else is as it was. */
  ghost predicate Midway(before: Points, now: Points, namespace: string, documents: seq<DocumentId>, i: nat,
      source: nat, target: nat, embed: Embedder)
    requires AllDistinct(before, namespace, documents, source) && i <= |documents|
  {
    && now == before + CopiesUpTo(before, namespace, documents, i, source, target, embed)
    && ReindexState(before, now, AllCopies(before, namespace, documents, source, target, embed))
  }

  lemma {:induction false} MidwayAtFirst(before: Points, namespace: string, documents: seq<DocumentId>, source: nat,
      target: nat, embed: Embedder)
    requires AllDistinct(before, namespace, documents, source)
    ensures Midway(before, before, namespace, documents, 0, source, target, embed)
  {
  }

  lemma {:induction false} StepReady(before: Points, now: Points, namespace: string, documents: seq<DocumentId>,
      i: nat, source: nat, target: nat, embed: Embedder)
    requires Runnable(before, namespace, documents, source, target) && i < |documents|
    requires Midway(before, now, namespace, documents, i, source, target, embed)
    ensures WellNamed(now) && DistinctPositions(now, namespace, documents[i], source)
  {
    StepFacts(before, now, namespace, documents, i, source, target, embed);
  }

  /** What the collection holds after iteration k, the iterations before it having copied their documents. */
  ghost function StateAfter(backend: Backend, before: Points, namespace: string, documents: seq<DocumentId>, k: nat,
      source: nat, target: nat, embed: Embedder, fault: DocumentFault): Points
    requires k < |documents| && AllDistinct(before, namespace, documents, source)
  {
    DocumentLeaves(backend, before + CopiesUpTo(before, namespace, documents, k, source, target, embed),
                   |Matching(before, namespace, documents[k], source)|,
                   Copies(before, namespace, documents[k], source, target, embed), fault)
  }

  /**
   * The states a run passes through from document k on: one after each iteration, up to the first that
   * meets a problem.
   */
  ghost function StatesOf(backend: Backend, before: Points, namespace: string, documents: seq<DocumentId>, k: nat,
      source: nat, target: nat, embed: Embedder, faults: Faults): seq<Points>
    requires k <= |documents| && AllDistinct(before, namespace, documents, source)
    decreases |documents| - k
  {
    if k == |documents| then []
    else
      var fault := FaultAt(faults, k);
      [StateAfter(backend, before, namespace, documents, k, source, target, embed, fault)]
      + if IterationProblem(backend, before, namespace, documents, k, source, target, embed, fault).Some? then []
        else StatesOf(backend, before, namespace, documents, k + 1, source, target, embed, faults)
  }

  lemma {:induction false} NoChunksNoCopies(points: Points, namespace: string, document: DocumentId, source: nat,
      target: nat, embed: Embedder)
    requires DistinctPositions(points, namespace, document, source)
    ensures |Matching(points, namespace, document, source)| == 0 ==>
      Copies(points, namespace, document, source, target, embed) == map[]
  {
    CopiesSize(points, namespace, document, source, target, embed);
  }

  lemma {:induction false} StepComposes(before: Points, now: Points, after: Points, namespace: string,
      documents: seq<DocumentId>, i: nat, source: nat, target: nat, embed: Embedder, backend: Backend,
      fault: DocumentFault, r: Result<nat, ReindexError>)
    requires Runnable(before, namespace, documents, source, target) && i < |documents|
    requires Midway(before, now, namespace, documents, i, source, target, embed)
    requires DistinctPositions(now, namespace, documents[i], source)
    requires var copies := Copies(now, namespace, documents[i], source, target, embed);
      var count := |Matching(now, namespace, documents[i], source)|;
      && ReindexState(now, after, copies)
      && r == Outcome(DocumentProblem(backend, now, count, copies, fault), count)
      && after == DocumentLeaves(backend, now, count, copies, fault)
    ensures ReindexState(before, after, AllCopies(before, namespace, documents, source, target, embed))
    ensures r == Outcome(ProblemAt(backend, before, namespace, documents, i, source, target, embed, fault),
                         |Matching(before, namespace, documents[i], source)|)
    ensures r.Ok? ==> Midway(before, after, namespace, documents, i + 1, source, target, embed)
    ensures after == StateAfter(backend, before, namespace, documents, i, source, target, embed, fault)
  {
    hide Copies, ReindexState, DistinctPositions, WellNamed;
    StepFacts(before, now, namespace, documents, i, source, target, embed);
    NoChunksNoCopies(now, namespace, documents[i], source, target, embed);
    var copies := Copies(now, namespace, documents[i], source, target, embed);
    ProblemSame(backend, before, now, |Matching(before, namespace, documents[i], source)|, copies, fault);
    StatesCompose(before, now, after, AllCopies(before, namespace, documents, source, target, embed), copies);
  }

  /** The problem of a document's step or of the progress update that follows it. */
  ghost function IterationProblem(backend: Backend, points: Points, namespace: string, documents: seq<DocumentId>,
      k: nat, source: nat, target: nat, embed: Embedder, fault: DocumentFault): Option<ReindexError>
    requires k < |documents| && AllDistinct(points, namespace, documents, source)
  {
    var problem := ProblemAt(backend, points, namespace, documents, k, source, target, embed, fault);
    if problem == None && fault.progressFails then Some(DatabaseFailed) else problem
  }

  /** One iteration: the document's step, then the progress update and commit. */
  method StepDocument(store: VectorStore, job: ReindexJob, documents: seq<DocumentId>, i: nat, embed: Embedder,
      fault: DocumentFault, chunks: nat, ghost before: Points)
    returns (problem: Option<ReindexError>, total: nat)
    requires store.Valid() && job.source == store.active && i < |documents|
    requires Runnable(before, job.namespace, documents, job.source, job.target)
    requires Midway(before, store.points, job.namespace, documents, i, job.source, job.target, embed)
    modifies store`points, store`order, job`processedDocuments, job`chunksReindexed
    ensures store.Valid()
    ensures ReindexState(before, store.points,
                         AllCopies(before, job.namespace, documents, job.source, job.target, embed))
    ensures problem
         == IterationProblem(store.backend, before, job.namespace, documents, i, job.source, job.target, embed, fault)
    ensures store.points
         == StateAfter(store.backend, before, job.namespace, documents, i, job.source, job.target, embed, fault)
    ensures problem == None ==>
      && Midway(before, store.points, job.namespace, documents, i + 1, job.source, job.target, embed)
      && total == chunks + |Matching(before, job.namespace, documents[i], job.source)|
      && job.processedDocuments == i + 1 && job.chunksReindexed == total
  {
    ghost var now := store.points;
    StepReady(before, now, job.namespace, documents, i, job.source, job.target, embed);
    var stored := ReindexDocument(store, job.namespace, documents[i], job.target, embed, fault);
    StepComposes(before, now, store.points, job.namespace, documents, i, job.source, job.target, embed, store.backend,
                 fault, stored);
    if stored.Err? {
      return Some(stored.error), chunks;
    }
    total := chunks + stored.value;
    if fault.progressFails {
      return Some(DatabaseFailed), total;
    }
    job.processedDocuments, job.chunksReindexed := i + 1, total;
    return None, total;
  }

  /** Every recorded state is one a reindex can leave. */
  ghost predicate StatesFrom(before: Points, states: seq<Points>, all: Points) {
    forall s | s in states :: ReindexState(before, s, all)
  }

  lemma {:induction false} OneMoreState(before: Points, states: seq<Points>, now: Points, all: Points)
    requires StatesFrom(before, states, all) && ReindexState(before, now, all)
    ensures StatesFrom(before, states + [now], all)
  {
  }

  lemma {:induction false} StatesOfStep(backend: Backend, before: Points, namespace: string, documents: seq<DocumentId>,
      k: nat, source: nat, target: nat, embed: Embedder, faults: Faults, passed: seq<Points>)
    requires k < |documents| && AllDistinct(before, namespace, documents, source)
    ensures var fault := FaultAt(faults, k);
      passed + StatesOf(backend, before, namespace, documents, k, source, target, embed, faults)
      == passed + [StateAfter(backend, before, namespace, documents, k, source, target, embed, fault)]
         + if IterationProblem(backend, before, namespace, documents, k, source, target, embed, fault).Some? then []
           else StatesOf(backend, before, namespace, documents, k + 1, source, target, embed, faults)
  {
  }

  /** The document loop: it stops at the first iteration that meets a problem. */
  method CopyDocuments(store: VectorStore, job: ReindexJob, documents: seq<DocumentId>, embed: Embedder, faults: Faults)
    returns (problem: Option<ReindexError>, chunks: nat, ghost states: seq<Points>)
    requires store.Valid() && job.source == store.active
    requires Runnable(store.points, job.namespace, documents, job.source, job.target)
    modifies store`points, store`order, job`processedDocuments, job`chunksReindexed
    ensures store.Valid()
    ensures problem
         == FirstProblem(store.backend, old(store.points), job.namespace, documents, 0, job.source, job.target, embed,
                         faults)
    ensures states == StatesOf(store.backend, old(store.points), job.namespace, documents, 0, job.source, job.target,
                               embed, faults)
    ensures store.points == LastOf(old(store.points), states)
    ensures StatesFrom(old(store.points), states + [store.points],
                       AllCopies(old(store.points), job.namespace, documents, job.source, job.target, embed))
    ensures problem == None ==>
      && store.points == old(store.points)
                         + AllCopies(old(store.points), job.namespace, documents, job.source, job.target, embed)
      && chunks == ChunkTotal(old(store.points), job.namespace, documents, |documents|, job.source)
      && (documents != [] ==> job.processedDocuments == |documents| && job.chunksReindexed == chunks)
  {
    hide StatesOf, FirstProblem, IterationProblem, StateAfter, ReindexState, CopiesUpTo, DistinctPositions, WellNamed;
    ghost var before, ns, from, to := store.points, job.namespace, job.source, job.target;
    ghost var all := AllCopies(before, ns, documents, from, to, embed);
    ghost var first := FirstProblem(store.backend, before, ns, documents, 0, from, to, embed, faults);
    ghost var every := StatesOf(store.backend, before, ns, documents, 0, from, to, embed, faults);
    chunks, states := 0, [];
    MidwayAtFirst(before, ns, documents, from, to, embed);
    for i := 0 to |documents|
      invariant store.Valid() && Midway(before, store.points, ns, documents, i, from, to, embed)
      invariant StatesFrom(before, states, all) && store.points == LastOf(before, states)
      invariant first == FirstProblem(store.backend, before, ns, documents, i, from, to, embed, faults)
      invariant every == states + StatesOf(store.backend, before, ns, documents, i, from, to, embed, faults)
      invariant chunks == ChunkTotal(before, ns, documents, i, from)
      invariant i > 0 ==> job.processedDocuments == i && job.chunksReindexed == chunks
    {
      FirstProblemStep(store.backend, before, ns, documents, i, from, to, embed, faults);
      StatesOfStep(store.backend, before, ns, documents, i, from, to, embed, faults, states);
      problem, chunks := StepDocument(store, job, documents, i, embed, FaultAt(faults, i), chunks, before);
      OneMoreState(before, states, store.points, all);
      states := states + [store.points];
      if problem.Some? {
        OneMoreState(before, states, store.points, all);
        return;
      }
    }
    OneMoreState(before, states, store.points, all);
    NothingLeft(store.backend, before, ns, documents, from, to, embed, faults);
    problem := None;
  }

  /** The state a run ends in: the last it passed through, or the one it started from. */
  ghost function LastOf(before: Points, states: seq<Points>): Points {
    if states == [] then before else states[|states| - 1]
  }

  lemma {:induction false} FirstProblemStep(backend: Backend, points: Points, namespace: string,
        documents: seq<DocumentId>, k: nat, source: nat, target: nat, embed: Embedder, faults: Faults)
    requires k < |documents| && AllDistinct(points, namespace, documents, source)
    ensures var problem :=
        IterationProblem(backend, points, namespace, documents, k, source, target, embed, FaultAt(faults, k));
      FirstProblem(backend, points, namespace, documents, k, source, target, embed, faults)
      == if problem.Some? then problem
         else FirstProblem(backend, points, namespace, documents, k + 1, source, target, embed, faults)
  {
  }

  lemma {:induction false} NothingLeft(backend: Backend, points: Points, namespace: string, documents: seq<DocumentId>,
      source: nat, target: nat, embed: Embedder, faults: Faults)
    requires AllDistinct(points, namespace, documents, source)
    ensures FirstProblem(backend, points, namespace, documents, |documents|, source, target, embed, faults) == None
    ensures StatesOf(backend, points, namespace, documents, |documents|, source, target, embed, faults) == []
  {
  }

  lemma {:induction false} StartIsState(before: Points, all: Points)
    ensures ReindexState(before, before, all)
  {
  }

  /** Does the job get to its documents? */
  predicate Begins(active: nat, source: nat, faults: Faults) {
    !faults.setupFails && !faults.providerMissing && source == active
  }

  /** The states of a whole job: none if it stops before its first document. */
  ghost function JobStates(backend: Backend, active: nat, before: Points, namespace: string, documents: seq<DocumentId>,
      source: nat, target: nat, embed: Embedder, faults: Faults): seq<Points>
    requires AllDistinct(before, namespace, documents, source)
  {
    if Begins(active, source, faults)
       then StatesOf(backend, before, namespace, documents, 0, source, target, embed, faults)
    else []
  }

  // ---- When a job completes ----

  /**
   * What one document needs: its steps do not fail and, if it has chunks, the embedder answers with as many
   * vectors and, on pgvector, none of its target ids is taken.
   */
  ghost predicate GoesThrough(backend: Backend, before: Points, namespace: string, document: DocumentId, source: nat,
      target: nat, fault: DocumentFault) {
    var chunks := set x | x in before && At(before[x], namespace, document, source);
    && !fault.listFails && !fault.progressFails
    && (chunks != {} ==>
          && (fault.embedding == Embeds || fault.embedding == Returns(|chunks|)) && fault.store == NoFault
          && (backend.Pgvector? ==>
                forall x | x in chunks :: TargetChunkId(document, before[x].position, target) !in before))
  }

  /** What a whole job needs: its own steps do not fail, no document stops it, and it has something to store. */
  ghost predicate NothingStops(backend: Backend, active: nat, before: Points, namespace: string,
      documents: seq<DocumentId>, source: nat, target: nat, faults: Faults) {
    && !faults.setupFails && !faults.providerMissing && source == active && !faults.completionFails
    && (documents == [] || exists x ::
          x in before && before[x].document in documents && At(before[x], namespace, before[x].document, source))
    && forall i | 0 <= i < |documents| ::
         GoesThrough(backend, before, namespace, documents[i], source, target,
                     if i < |faults.documents| then faults.documents[i]
                     else DocumentFault(false, Embeds, NoFault, false))
  }

  lemma {:induction false} GoesThroughIff(backend: Backend, before: Points, namespace: string,
      documents: seq<DocumentId>, k: nat, source: nat, target: nat, embed: Embedder, fault: DocumentFault)
    requires k < |documents| && AllDistinct(before, namespace, documents, source)
    ensures IterationProblem(backend, before, namespace, documents, k, source, target, embed, fault) == None
       <==> GoesThrough(backend, before, namespace, documents[k], source, target, fault)
  {
    hide DistinctPositions;
    var d := documents[k];
    var chunks, copies := Matching(before, namespace, d, source), Copies(before, namespace, d, source, target, embed);
    assert chunks == set x | x in before && At(before[x], namespace, d, source);
    assert |chunks| == 0 <==> chunks == {};
    TakenIff(before, namespace, d, source, target, embed);
  }

  /** A copy's id is taken exactly when some chunk's target id is. */
  lemma {:induction false} TakenIff(before: Points, namespace: string, d: DocumentId, source: nat, target: nat,
      embed: Embedder)
    requires DistinctPositions(before, namespace, d, source)
    ensures Copies(before, namespace, d, source, target, embed).Keys !! before.Keys
       <==> forall x | x in Matching(before, namespace, d, source) ::
              TargetChunkId(d, before[x].position, target) !in before
  {
    hide Copies, DistinctPositions;
    var copies := Copies(before, namespace, d, source, target, embed);
    forall x | x in Matching(before, namespace, d, source)
      ensures TargetChunkId(d, before[x].position, target) in copies
    {
      CopyIn(before, namespace, d, source, target, embed, x);
    }
    forall id | id in copies
      ensures exists x ::
        x in Matching(before, namespace, d, source) && TargetChunkId(d, before[x].position, target) == id
    {
      var x := OriginalOf(before, namespace, d, source, target, embed, id);
    }
  }

  lemma {:induction false} AllGoThrough(backend: Backend, before: Points, namespace: string, documents: seq<DocumentId>,
      k: nat, source: nat, target: nat, embed: Embedder, faults: Faults)
    requires k <= |documents| && AllDistinct(before, namespace, documents, source)
    ensures FirstProblem(backend, before, namespace, documents, k, source, target, embed, faults) == None
       <==> forall i | k <= i < |documents| ::
              GoesThrough(backend, before, namespace, documents[i], source, target, FaultAt(faults, i))
    decreases |documents| - k
  {
    hide IterationProblem, GoesThrough;
    if k < |documents| {
      GoesThroughIff(backend, before, namespace, documents, k, source, target, embed, FaultAt(faults, k));
      AllGoThrough(backend, before, namespace, documents, k + 1, source, target, embed, faults);
    }
  }

  lemma {:induction false} RunCompletesIff(backend: Backend, active: nat, before: Points, namespace: string,
      documents: seq<DocumentId>, source: nat, target: nat, embed: Embedder, faults: Faults)
    requires Runnable(before, namespace, documents, source, target)
    ensures RunProblem(backend, active, before, namespace, documents, source, target, embed, faults) == None
       <==> NothingStops(backend, active, before, namespace, documents, source, target, faults)
  {
    hide GoesThrough, FirstProblem, AllDistinct, WellNamed;
    AllGoThrough(backend, before, namespace, documents, 0, source, target, embed, faults);
    TotalIsSize(before, namespace, documents, |documents|, source);
    assert documents[..|documents|] == documents;
    var all := DocumentsAt(before, namespace, documents, source);
    assert |all| == 0 <==> all == {};
    forall x
      ensures x in all <==> && x in before && before[x].document in documents
                            && At(before[x], namespace, before[x].document, source)
    {
    }
  }

  /**
   * The job. `documents` is the snapshot of the namespace's live documents, ids being primary keys.
   * It completes exactly when nothing stops it, having processed every document; `states` are the states
   * it passes through, and in each of them all versions but the target are untouched and whatever is new
   * is a chunk of the documents embedded anew.
   */
  method RunReindex(store: VectorStore, job: ReindexJob, documents: seq<DocumentId>, embed: Embedder, faults: Faults)
    returns (ghost states: seq<Points>)
    requires store.Valid() && Runnable(store.points, job.namespace, documents, job.source, job.target)
    modifies store`points, store`order, job
    ensures store.Valid() && WellNamed(store.points)
    ensures var before := old(store.points);
      var all := AllCopies(before, job.namespace, documents, job.source, job.target, embed);
      var problem := RunProblem(store.backend, store.active, before, job.namespace, documents, job.source, job.target,
                                embed, faults);
      && states == JobStates(store.backend, store.active, before, job.namespace, documents, job.source, job.target,
                             embed, faults)
      && store.points == LastOf(before, states)
      && StatesFrom(before, states + [store.points], all)
      && (job.status == Completed <==> problem == None)
      && (problem == None ==> && store.points == before + all
                              && job.chunksReindexed
                                   == ChunkTotal(before, job.namespace, documents, |documents|, job.source))
      && (problem.Some? && !faults.reportFails ==> job.status == Failed && job.error == problem)
    ensures job.status == Completed
       <==> NothingStops(store.backend, store.active, old(store.points), job.namespace, documents, job.source,
                         job.target, faults)
    ensures !faults.setupFails ==> job.totalDocuments == |documents|
    ensures job.status == Completed && documents != [] ==> job.processedDocuments == |documents|
    ensures forall s, v | s in states + [store.points] && v != job.target ::
      VersionPart(s, v) == VersionPart(old(store.points), v)
    ensures forall s | s in states + [store.points] ::
      OnlyReembedded(old(store.points), s, job.namespace, documents, job.source, job.target, embed)
    ensures job.status == Completed ==>
      AllReembedded(old(store.points), store.points, job.namespace, documents, job.source, job.target, embed)
  {
    hide StatesOf, FirstProblem, ReindexState, CopiesUpTo, DistinctPositions, WellNamed, OnlyReembedded, AllReembedded,
      NothingStops, GoesThrough;
    ghost var before := store.points;
    ghost var all := AllCopies(before, job.namespace, documents, job.source, job.target, embed);
    var problem: Option<ReindexError>;
    states := [];
    StartIsState(before, all);
    RunCompletesIff(store.backend, store.active, before, job.namespace, documents, job.source, job.target, embed,
                    faults);
    job.status := Running;
    if faults.setupFails {
      job.status := Pending;
      problem := Some(DatabaseFailed);
    } else {
      job.totalDocuments := |documents|;
      if faults.providerMissing {
        problem := Some(ProviderMissing);
      } else if job.source != store.active {
        problem := Some(WrongSourceVersion);
      } else {
        var chunks;
        problem, chunks, states := CopyDocuments(store, job, documents, embed, faults);
        if problem == None {
          if |documents| > 0 && chunks == 0 {
            problem := Some(NothingStored);
          } else if faults.completionFails {
            problem := Some(DatabaseFailed);
          } else {
            job.status, job.chunksReindexed := Completed, chunks;
          }
        }
      }
    }
    if problem.Some? && !faults.reportFails {
      job.status, job.error := Failed, problem;
    }
    StateWellNamed(before, store.points, job.namespace, documents, job.source, job.target, embed);
    forall s, v | s in states + [store.points] && v != job.target ensures VersionPart(s, v) == VersionPart(before, v) {
      OtherVersionsUntouched(before, s, job.namespace, documents, job.source, job.target, embed, v);
    }
    forall s | s in states + [store.points]
      ensures OnlyReembedded(before, s, job.namespace, documents, job.source, job.target, embed)
    {
      StatesReembed(before, s, job.namespace, documents, job.source, job.target, embed);
    }
    if job.status == Completed {
      CompleteReembeds(before, store.points, job.namespace, documents, job.source, job.target, embed);
    }
  }
}
