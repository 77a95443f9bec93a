/**
 * What a job leaves of each document at its target when no store call of it leaves points behind: all
 * the copies, what was there before, or nothing. So the target's links stay whole even if the job fails.
 */
module ReindexOutcome {
  import opened Support
  import opened ChunkIds
  import opened VectorStores
  import opened ChunkCopies
  import opened Reindex
  import opened ReindexRun
  import opened ChunkLinks

  /** Can a store call of the job leave points behind? */
  predicate JobResidue(backend: Backend, faults: Faults) {
    exists i | 0 <= i < |faults.documents| :: LeavesResidue(backend, faults.documents[i].store)
  }

  predicate SameAt(a: Points, b: Points, id: ChunkId) {
    (id in a <==> id in b) && (id in a ==> a[id] == b[id])
  }

  ghost predicate InPlace(now: Points, copies: Points) {
    forall id | id in copies :: id in now && now[id] == copies[id]
  }

  ghost predicate Untouched(before: Points, now: Points, copies: Points) {
    forall id | id in copies :: SameAt(before, now, id)
  }

  /** The ids of a document's copies hold all of them, what they held before, or nothing. */
  ghost predicate AllOrNone(before: Points, now: Points, copies: Points) {
    InPlace(now, copies) || Untouched(before, now, copies) || copies.Keys !! now.Keys
  }

  lemma {:induction false} NoResidueLeaves(backend: Backend, points: Points, count: nat, copies: Points,
      fault: DocumentFault)
    requires !LeavesResidue(backend, fault.store)
    ensures var left := DocumentLeaves(backend, points, count, copies, fault);
      left == points || left == points + copies || left == points - copies.Keys
  {
  }

  /** Once the first k documents are copied, their copies are in place and the ids of the others as before. */
  lemma {:induction false} AfterFirst(before: Points, namespace: string, documents: seq<DocumentId>, k: nat,
      source: nat, target: nat, embed: Embedder, j: nat)
    requires AllDistinct(before, namespace, documents, source) && NoDuplicates(documents)
    requires k <= |documents| && j < |documents|
    ensures var now := before + CopiesUpTo(before, namespace, documents, k, source, target, embed);
      var copies := Copies(before, namespace, documents[j], source, target, embed);
      if j < k then InPlace(now, copies) else Untouched(before, now, copies)
  {
    var d := documents[j];
    var done := CopiesUpTo(before, namespace, documents, k, source, target, embed);
    forall id | id in Copies(before, namespace, d, source, target, embed)
      ensures if j < k then id in done && done[id] == Copies(before, namespace, d, source, target, embed)[id]
         else id !in done
    {
      if j < k {
        assert documents[..k][j] == d;
        CopiesUpToHas(before, namespace, documents, k, source, target, embed, d, id);
      } else if id in done {
        CopyDocument(before, namespace, d, source, target, embed, id);
        CopiesUpToAt(before, namespace, documents, k, source, target, embed, id);
      }
    }
  }

  lemma {:induction false} CopiesDisjoint(before: Points, namespace: string, documents: seq<DocumentId>, source: nat,
      target: nat, embed: Embedder, d: DocumentId, other: DocumentId)
    requires AllDistinct(before, namespace, documents, source) && d in documents && other in documents && d != other
    ensures Copies(before, namespace, d, source, target, embed).Keys
         !! Copies(before, namespace, other, source, target, embed).Keys
  {
    forall id | id in Copies(before, namespace, d, source, target, embed)
      ensures id !in Copies(before, namespace, other, source, target, embed)
    {
      CopyDocument(before, namespace, d, source, target, embed, id);
      CopyDocument(before, namespace, other, source, target, embed, id);
    }
  }

  lemma {:induction false} OverlayTwice(a: Points, b: Points, c: Points)
    ensures (a + b) + c == a + (b + c)
  {
  }

  lemma {:induction false} SuccessLeaves(backend: Backend, points: Points, count: nat, copies: Points,
        fault: DocumentFault)
    requires DocumentProblem(backend, points, count, copies, fault) == None && (count == 0 ==> copies == map[])
    ensures DocumentLeaves(backend, points, count, copies, fault) == points + copies
  {
  }

  /** The state after an iteration without a problem has one more document copied. */
  lemma {:induction false} NextState(backend: Backend, before: Points, namespace: string, documents: seq<DocumentId>,
      k: nat, source: nat, target: nat, embed: Embedder, fault: DocumentFault)
    requires Runnable(before, namespace, documents, source, target) && k < |documents|
    requires ProblemAt(backend, before, namespace, documents, k, source, target, embed, fault) == None
    ensures StateAfter(backend, before, namespace, documents, k, source, target, embed, fault)
         == before + CopiesUpTo(before, namespace, documents, k + 1, source, target, embed)
  {
    hide DocumentProblem, DocumentLeaves, Copies, DistinctPositions, Matching;
    var done := CopiesUpTo(before, namespace, documents, k, source, target, embed);
    var copies := Copies(before, namespace, documents[k], source, target, embed);
    var count := |Matching(before, namespace, documents[k], source)|;
    NoChunksNoCopies(before, namespace, documents[k], source, target, embed);
    CopiedSoFar(before, namespace, documents, k, source, target, embed);
    ProblemSame(backend, before, before + done, count, copies, fault);
    SuccessLeaves(backend, before + done, count, copies, fault);
    OverlayTwice(before, done, copies);
  }

  /** The copies made so far take none of the next document's ids. */
  lemma {:induction false} CopiedSoFar(before: Points, namespace: string, documents: seq<DocumentId>, k: nat,
      source: nat, target: nat, embed: Embedder)
    requires AllDistinct(before, namespace, documents, source) && NoDuplicates(documents) && k < |documents|
    ensures var copies := Copies(before, namespace, documents[k], source, target, embed);
      copies.Keys !! before.Keys
      <==> copies.Keys !! (before + CopiesUpTo(before, namespace, documents, k, source, target, embed)).Keys
  {
    AfterFirst(before, namespace, documents, k, source, target, embed, k);
    var copies := Copies(before, namespace, documents[k], source, target, embed);
    assert forall id | id in copies ::
      SameAt(before, before + CopiesUpTo(before, namespace, documents, k, source, target, embed), id);
  }

  /** A problem at document k leaves the other documents as they were and this one whole. */
  lemma {:induction false} StoppedAt(backend: Backend, before: Points, namespace: string, documents: seq<DocumentId>,
      k: nat, source: nat, target: nat, embed: Embedder, fault: DocumentFault, j: nat)
    requires AllDistinct(before, namespace, documents, source) && NoDuplicates(documents)
    requires k < |documents| && j < |documents| && !LeavesResidue(backend, fault.store)
    ensures AllOrNone(before, StateAfter(backend, before, namespace, documents, k, source, target, embed, fault),
                      Copies(before, namespace, documents[j], source, target, embed))
  {
    hide DocumentLeaves, Copies, DistinctPositions, Matching, LeavesResidue;
    var now := before + CopiesUpTo(before, namespace, documents, k, source, target, embed);
    var mine := Copies(before, namespace, documents[k], source, target, embed);
    NoResidueLeaves(backend, now, |Matching(before, namespace, documents[k], source)|, mine, fault);
    AfterFirst(before, namespace, documents, k, source, target, embed, j);
    if j != k {
      CopiesDisjoint(before, namespace, documents, source, target, embed, documents[j], documents[k]);
    }
  }

  /** The states from document k on end in one that is whole for every document. */
  lemma {:induction false} RunLeavesWhole(backend: Backend, before: Points, namespace: string,
        documents: seq<DocumentId>, k: nat, source: nat, target: nat, embed: Embedder, faults: Faults, j: nat)
    requires Runnable(before, namespace, documents, source, target) && !JobResidue(backend, faults)
    requires k <= |documents| && j < |documents|
    ensures AllOrNone(before, LastOf(before + CopiesUpTo(before, namespace, documents, k, source, target, embed),
                                     StatesOf(backend, before, namespace, documents, k, source, target, embed, faults)),
                      Copies(before, namespace, documents[j], source, target, embed))
    decreases |documents| - k
  {
    hide AllOrNone, DocumentProblem, CopiesUpTo, Copies, StateAfter, DistinctPositions, JobResidue;
    if k == |documents| {
      AfterAll(before, namespace, documents, source, target, embed, j);
    } else {
      var fault := FaultAt(faults, k);
      FaultWithoutResidue(backend, faults, k);
      StoppedAt(backend, before, namespace, documents, k, source, target, embed, fault, j);
      if IterationProblem(backend, before, namespace, documents, k, source, target, embed, fault) == None {
        NextState(backend, before, namespace, documents, k, source, target, embed, fault);
        RunLeavesWhole(backend, before, namespace, documents, k + 1, source, target, embed, faults, j);
      }
    }
  }

  lemma {:induction false} AfterAll(before: Points, namespace: string, documents: seq<DocumentId>, source: nat,
      target: nat, embed: Embedder, j: nat)
    requires AllDistinct(before, namespace, documents, source) && NoDuplicates(documents) && j < |documents|
    ensures AllOrNone(before, before + CopiesUpTo(before, namespace, documents, |documents|, source, target, embed),
                      Copies(before, namespace, documents[j], source, target, embed))
  {
    AfterFirst(before, namespace, documents, |documents|, source, target, embed, j);
  }

  lemma {:induction false} FaultWithoutResidue(backend: Backend, faults: Faults, k: nat)
    requires !JobResidue(backend, faults)
    ensures !LeavesResidue(backend, FaultAt(faults, k).store)
  {
  }

  /** Whatever stops a job whose store calls leave no points behind, it leaves each document whole. */
  lemma {:induction false} JobLeavesWhole(backend: Backend, active: nat, before: Points, namespace: string,
      documents: seq<DocumentId>, source: nat, target: nat, embed: Embedder, faults: Faults, d: DocumentId)
    requires Runnable(before, namespace, documents, source, target) && !JobResidue(backend, faults) && d in documents
    ensures var states := JobStates(backend, active, before, namespace, documents, source, target, embed, faults);
      AllOrNone(before, LastOf(before, states), Copies(before, namespace, d, source, target, embed))
  {
    hide Copies, StatesOf, AllDistinct, WellNamed;
    if Begins(active, source, faults) {
      var j :| 0 <= j < |documents| && documents[j] == d;
      RunLeavesWhole(backend, before, namespace, documents, 0, source, target, embed, faults, j);
      assert before + CopiesUpTo(before, namespace, documents, 0, source, target, embed) == before;
    }
  }

  // ---- What a document has at the target afterwards ----

  /** A document has the same chunks at the version in both collections. */
  ghost predicate SamePiece(a: Points, b: Points, namespace: string, document: DocumentId, version: nat) {
    && Matching(a, namespace, document, version) == Matching(b, namespace, document, version)
    && forall id | id in Matching(a, namespace, document, version) :: a[id] == b[id]
  }

  /** Only a document's own copies can touch what it has at the target. */
  lemma {:induction false} OnlyOwnCopies(before: Points, now: Points, namespace: string, documents: seq<DocumentId>,
      source: nat, target: nat, embed: Embedder, d: DocumentId, id: ChunkId)
    requires WellNamed(before) && AllDistinct(before, namespace, documents, source) && d in documents
    requires ReindexState(before, now, AllCopies(before, namespace, documents, source, target, embed))
    requires id !in Copies(before, namespace, d, source, target, embed)
    ensures id in Matching(now, namespace, d, target) <==> id in Matching(before, namespace, d, target)
    ensures id in Matching(now, namespace, d, target) ==> now[id] == before[id]
  {
    var all := AllCopies(before, namespace, documents, source, target, embed);
    CopiesAmongAll(before, namespace, documents, source, target, embed, d);
    if id in all {
      AllCopiesAt(before, namespace, documents, source, target, embed, id);
      assert id in before ==> WellNamedPoint(id, before[id]);
    } else {
      AgreeAt(before, now, all.Keys, id);
    }
  }

  /** A job changes nothing of a document outside its snapshot. */
  lemma {:induction false} OthersUntouched(before: Points, now: Points, job: string, documents: seq<DocumentId>,
        source: nat, target: nat, embed: Embedder, namespace: string, d: DocumentId, version: nat)
    requires WellNamed(before) && AllDistinct(before, job, documents, source) && d !in documents
    requires ReindexState(before, now, AllCopies(before, job, documents, source, target, embed))
    ensures SamePiece(before, now, namespace, d, version)
  {
    var all := AllCopies(before, job, documents, source, target, embed);
    forall id
      ensures id in Matching(now, namespace, d, version) <==> id in Matching(before, namespace, d, version)
      ensures id in Matching(now, namespace, d, version) ==> now[id] == before[id]
    {
      if id in all {
        AllCopiesAt(before, job, documents, source, target, embed, id);
        assert id in before ==> WellNamedPoint(id, before[id]);
      } else {
        AgreeAt(before, now, all.Keys, id);
      }
    }
  }

  /** A document left whole has its copies at the target, what it had there, or nothing. */
  lemma {:induction false} WholeAtTarget(before: Points, now: Points, namespace: string, documents: seq<DocumentId>,
      source: nat, target: nat, embed: Embedder, d: DocumentId)
    requires WellNamed(before) && AllDistinct(before, namespace, documents, source) && d in documents
    requires ReindexState(before, now, AllCopies(before, namespace, documents, source, target, embed))
    requires AllOrNone(before, now, Copies(before, namespace, d, source, target, embed))
    requires Matching(before, namespace, d, source) != {} ==> Overwritten(before, namespace, d, source, target, embed)
    ensures HoldsCopies(before, now, namespace, d, source, target, embed)
       || SamePiece(before, now, namespace, d, target)
            || Matching(now, namespace, d, target) == {}
  {
    var copies := Copies(before, namespace, d, source, target, embed);
    CopiesAmongAll(before, namespace, documents, source, target, embed, d);
    NoChunksNoCopies(before, namespace, d, source, target, embed);
    forall id | id !in copies
      ensures id in Matching(now, namespace, d, target) <==> id in Matching(before, namespace, d, target)
      ensures id in Matching(now, namespace, d, target) ==> now[id] == before[id]
    {
      OnlyOwnCopies(before, now, namespace, documents, source, target, embed, d, id);
    }
    assert DistinctPositions(before, namespace, d, source);
    if Matching(before, namespace, d, source) != {} && InPlace(now, copies) {
      assert Matching(now, namespace, d, target) == copies.Keys;
    }
  }

  /** So its chunks at the target are still distinct and linked. */
  lemma {:induction false} WholeIsValid(before: Points, now: Points, namespace: string, source: nat, target: nat,
      embed: Embedder, d: DocumentId)
    requires DocumentValid(before, namespace, d, source) && DocumentValid(before, namespace, d, target)
    requires HoldsCopies(before, now, namespace, d, source, target, embed)
       || SamePiece(before, now, namespace, d, target)
             || Matching(now, namespace, d, target) == {}
    ensures DocumentValid(now, namespace, d, target)
  {
    if HoldsCopies(before, now, namespace, d, source, target, embed) {
      HeldCopiesLinked(before, now, namespace, d, source, target, embed);
    } else if SamePiece(before, now, namespace, d, target) {
      DocumentValidSame(before, now, namespace, d, target);
    }
  }

  // ---- Versions that agree on positions ----

  ghost predicate HasPosition(points: Points, namespace: string, document: DocumentId, version: nat, position: nat) {
    exists id :: id in Matching(points, namespace, document, version) && points[id].position == position
  }

  /** Unless it has nothing at one of them, a document has chunks at the same positions of both versions. */
  ghost predicate SamePositions(points: Points, namespace: string, document: DocumentId, v: nat, w: nat) {
    Matching(points, namespace, document, v) != {} && Matching(points, namespace, document, w) != {} ==>
      forall p: nat ::
        HasPosition(points, namespace, document, v, p) <==> HasPosition(points, namespace, document, w, p)
  }

  lemma {:induction false} SamePiecePositions(a: Points, b: Points, namespace: string, document: DocumentId, v: nat,
        p: nat)
    requires SamePiece(a, b, namespace, document, v)
    ensures HasPosition(a, namespace, document, v, p) <==> HasPosition(b, namespace, document, v, p)
  {
    if id :| id in Matching(a, namespace, document, v) && a[id].position == p {
      assert id in Matching(b, namespace, document, v) && b[id].position == p;
    }
    if id :| id in Matching(b, namespace, document, v) && b[id].position == p {
      assert id in Matching(a, namespace, document, v) && a[id].position == p;
    }
  }

  lemma {:induction false} CopiesPositions(before: Points, now: Points, namespace: string, d: DocumentId, source: nat,
      target: nat, embed: Embedder, p: nat)
    requires HoldsCopies(before, now, namespace, d, source, target, embed)
    ensures HasPosition(now, namespace, d, target, p) <==> HasPosition(before, namespace, d, source, p)
  {
    if id :| id in Matching(now, namespace, d, target) && now[id].position == p {
      var x := OriginalOf(before, namespace, d, source, target, embed, id);
      assert x in Matching(before, namespace, d, source) && before[x].position == p;
    }
    if x :| x in Matching(before, namespace, d, source) && before[x].position == p {
      CopyIn(before, namespace, d, source, target, embed, x);
      assert TargetChunkId(d, p, target) in Matching(now, namespace, d, target);
    }
  }

  /** A document whose target holds reindexed chunks only, at the positions of the source, is overwritten by a job. */
  lemma {:induction false} ReindexedIsOverwritten(points: Points, namespace: string, d: DocumentId, source: nat,
      target: nat, embed: Embedder)
    requires WellNamed(points) && DistinctPositions(points, namespace, d, source)
    requires Matching(points, namespace, d, source) != {} && SamePositions(points, namespace, d, source, target)
    requires forall id | id in Matching(points, namespace, d, target) :: id.TargetChunkId?
    ensures Overwritten(points, namespace, d, source, target, embed)
  {
    forall id | id in Matching(points, namespace, d, target)
      ensures id in Copies(points, namespace, d, source, target, embed)
    {
      assert WellNamedPoint(id, points[id]);
      assert HasPosition(points, namespace, d, target, points[id].position);
      var x :| x in Matching(points, namespace, d, source) && points[x].position == points[id].position;
      CopyIn(points, namespace, d, source, target, embed, x);
    }
  }
}
