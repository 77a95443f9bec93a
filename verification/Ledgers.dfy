/**
 * What an operator can write down while a system runs, and what it says about the collection: which
 * versions of which namespaces ingests wrote to, and which of them a job may have left in pieces.
 */
module Ledgers {
  import opened Support
  import opened ChunkIds
  import opened Chunking
  import opened VectorStores
  import opened ChunkCopies
  import opened Reindex
  import opened ReindexRun
  import opened ReindexOutcome
  import opened DocumentTable
  import opened ChunkLinks
  import opened IngestRun
  import opened Ingest
  import opened DocumentDeletion
  import opened SystemSteps

  type Pairs = set<(string, nat)>

  /** The served version, the versions of a namespace that ingests wrote to, and those that may be in pieces. */
  datatype Ledger = Ledger(active: nat, ingested: Pairs, partial: Pairs)

  /**
   * The ledger after an operation. A job may leave its target in pieces if one of its store calls can leave
   * points behind, or if ingested chunks stand there, which copies do not replace. A reclaim clears that up.
   */
  function Noted(l: Ledger, op: Operation, backend: Backend): Ledger {
    match op
    case IngestFile(namespace, _, _, _, _, _) => l.(ingested := l.ingested + {(namespace, l.active)})
    case ReindexInto(namespace, target, _, faults) =>
      if target != l.active && ((namespace, target) in l.ingested || JobResidue(backend, faults))
      then l.(partial := l.partial + {(namespace, target)}) else l
    case SwitchTo(target) => l.(active := target)
    case Reclaim(namespace, version, fails) =>
      if version == l.active || fails then l
      else l.(ingested := l.ingested - {(namespace, version)}, partial := l.partial - {(namespace, version)})
    case _ => l
  }

  /** No namespace may have the version in pieces. */
  predicate InOnePiece(l: Ledger, version: nat) {
    forall pair | pair in l.partial :: pair.1 != version
  }

  /**
   * What the operator must not do: switch to a version in pieces. And a failed ingest cleans up its row or
   * its points.
   */
  predicate Permitted(l: Ledger, op: Operation, backend: Backend) {
    match op
    case IngestFile(_, _, _, _, _, faults) => !(faults.cleanupFails && LeavesResidue(backend, faults.store))
    case SwitchTo(target) => InOnePiece(l, target)
    case _ => true
  }

  /**
   * A document is valid at every version in one piece, and has chunks at the same positions of any two that
   * have chunks.
   */
  ghost predicate DocumentSound(points: Points, namespace: string, d: DocumentId, partial: Pairs) {
    && (forall v: nat | (namespace, v) !in partial :: DocumentValid(points, namespace, d, v))
    && forall v: nat, w: nat | (namespace, v) !in partial && (namespace, w) !in partial ::
      SamePositions(points, namespace, d, v, w)
  }

  ghost predicate DocumentsSound(points: Points, t: Table, partial: Pairs) {
    forall d | Ingested(t, d) :: DocumentSound(points, t[d].namespace, d, partial)
  }

  /** Where no ingest wrote there are only reindexed chunks. */
  ghost predicate ReindexedElsewhere(points: Points, ingested: Pairs) {
    forall id | id in points && (points[id].namespace, points[id].version) !in ingested :: id.TargetChunkId?
  }

  /** What the ledger says of the collection. */
  ghost predicate Sound(s: Moment, l: Ledger) {
    && TableValid(s.documents) && WellNamed(s.points) && Owned(s.points, s.documents)
    && l.active == s.active && InOnePiece(l, l.active)
    && DocumentsSound(s.points, s.documents, l.partial) && ReindexedElsewhere(s.points, l.ingested)
  }

  /** A version in one piece is valid; in particular the served one is. */
  lemma {:induction false} SoundVersionValid(s: Moment, l: Ledger, version: nat)
    requires Sound(s, l) && InOnePiece(l, version)
    ensures VersionValid(s.points, s.documents, version)
  {
    forall d | Ingested(s.documents, d) ensures DocumentValid(s.points, s.documents[d].namespace, d, version) {
      assert DocumentSound(s.points, s.documents[d].namespace, d, l.partial);
    }
  }

  lemma {:induction false} SoundIsValid(s: Moment, l: Ledger)
    requires Sound(s, l)
    ensures MomentValid(s)
  {
    SoundVersionValid(s, l, s.active);
  }

  // ---- A ledger for any valid state ----

  /** Nothing known: every stored version counts as ingested, and every one but the served as in pieces. */
  ghost function CautiousLedger(s: Moment): Ledger {
    Ledger(s.active, set id | id in s.points :: (s.points[id].namespace, s.points[id].version),
           set id | id in s.points && s.points[id].version != s.active ::
             (s.points[id].namespace, s.points[id].version))
  }

  lemma {:induction false} CautiousIsSound(s: Moment)
    requires MomentValid(s)
    ensures Sound(s, CautiousLedger(s))
  {
    var l := CautiousLedger(s);
    forall d, v: nat | Ingested(s.documents, d) && (s.documents[d].namespace, v) !in l.partial && v != s.active
      ensures Matching(s.points, s.documents[d].namespace, d, v) == {}
    {
      CautiousElsewhere(s, s.documents[d].namespace, d, v);
    }
    forall d | Ingested(s.documents, d) ensures DocumentSound(s.points, s.documents[d].namespace, d, l.partial) {
      assert DocumentValid(s.points, s.documents[d].namespace, d, s.active);
    }
  }

  lemma {:induction false} CautiousElsewhere(s: Moment, namespace: string, d: DocumentId, v: nat)
    requires (namespace, v) !in CautiousLedger(s).partial && v != s.active
    ensures Matching(s.points, namespace, d, v) == {}
  {
    assert forall id | id in s.points && s.points[id].version != s.active ::
      (s.points[id].namespace, s.points[id].version) in CautiousLedger(s).partial;
  }

  // ---- Pieces that stay or go keep a document sound ----

  lemma {:induction false} DocumentStaysSound(a: Points, b: Points, namespace: string, d: DocumentId, p: Pairs,
        q: Pairs)
    requires DocumentSound(a, namespace, d, p)
    requires forall v: nat | (namespace, v) !in q ::
      Matching(b, namespace, d, v) == {} || ((namespace, v) !in p && SamePiece(a, b, namespace, d, v))
    ensures DocumentSound(b, namespace, d, q)
  {
    hide DocumentValid, SamePiece, HasPosition;
    forall v: nat | (namespace, v) !in q ensures DocumentValid(b, namespace, d, v) {
      PieceValid(a, b, namespace, d, v);
    }
    forall v: nat, w: nat | (namespace, v) !in q && (namespace, w) !in q ensures SamePositions(b, namespace, d, v, w) {
      if Matching(b, namespace, d, v) != {} && Matching(b, namespace, d, w) != {} {
        PiecePositions(a, b, namespace, d, v, w);
      }
    }
  }

  lemma {:induction false} PieceValid(a: Points, b: Points, namespace: string, d: DocumentId, v: nat)
    requires Matching(b, namespace, d, v) == {}
       || (SamePiece(a, b, namespace, d, v) && DocumentValid(a, namespace, d, v))
    ensures DocumentValid(b, namespace, d, v)
  {
    if Matching(b, namespace, d, v) != {} {
      DocumentValidSame(a, b, namespace, d, v);
    }
  }

  lemma {:induction false} PiecePositions(a: Points, b: Points, namespace: string, d: DocumentId, v: nat, w: nat)
    requires SamePiece(a, b, namespace, d, v) && SamePiece(a, b, namespace, d, w)
    requires SamePositions(a, namespace, d, v, w)
    ensures SamePositions(b, namespace, d, v, w)
  {
    hide HasPosition;
    forall p: nat ensures HasPosition(a, namespace, d, v, p) == HasPosition(b, namespace, d, v, p)
                  ensures HasPosition(a, namespace, d, w, p) == HasPosition(b, namespace, d, w, p) {
      SamePiecePositions(a, b, namespace, d, v, p);
      SamePiecePositions(a, b, namespace, d, w, p);
    }
  }

  /** The points of one document stay or go as a whole, so each of its versions does. */
  lemma {:induction false} WholeDocumentPieces(a: Points, b: Points, namespace: string, d: DocumentId, v: nat)
    requires PointsStay(a, b, d) || NoPointsOf(b, d)
    requires forall id | id in b && b[id].document == d :: id in a && b[id] == a[id]
    ensures SamePiece(a, b, namespace, d, v) || Matching(b, namespace, d, v) == {}
  {
  }

  // ---- Deletions ----

  /** The points of some documents under one namespace, as every delete takes them. */
  function TakenBy(points: Points, namespace: string, documents: set<DocumentId>): set<ChunkId> {
    set id | id in points && points[id].namespace == namespace && points[id].document in documents
  }

  lemma {:induction false} TakenStaysOrGoes(points: Points, t: Table, namespace: string, documents: set<DocumentId>,
        d: DocumentId)
    requires Owned(points, t)
    ensures var b := points - TakenBy(points, namespace, documents);
      PointsStay(points, b, d) || NoPointsOf(b, d)
  {
    if !(d in documents && d in t && t[d].namespace == namespace) {
      assert forall id | id in points && points[id].document == d :: id !in TakenBy(points, namespace, documents);
    }
  }

  lemma {:induction false} TakingKeepsSound(s: Moment, r: Moment, l: Ledger, namespace: string,
        documents: set<DocumentId>)
    requires Sound(s, l) && MomentValid(r) && r.active == s.active
    requires r.points == s.points - TakenBy(s.points, namespace, documents)
    requires forall d | Ingested(r.documents, d) ::
      Ingested(s.documents, d) && r.documents[d].namespace == s.documents[d].namespace
    ensures Sound(r, l)
  {
    hide DocumentSound, TakenBy, RowValid, UniqueLive;
    forall d | Ingested(r.documents, d) ensures DocumentSound(r.points, r.documents[d].namespace, d, l.partial) {
      var ns := s.documents[d].namespace;
      assert DocumentSound(s.points, ns, d, l.partial);
      TakenStaysOrGoes(s.points, s.documents, namespace, documents, d);
      WholeDocumentSound(s.points, r.points, ns, d, l.partial);
    }
  }

  lemma {:induction false} WholeDocumentSound(a: Points, b: Points, namespace: string, d: DocumentId, partial: Pairs)
    requires DocumentSound(a, namespace, d, partial) && (PointsStay(a, b, d) || NoPointsOf(b, d))
    requires forall id | id in b && b[id].document == d :: id in a && b[id] == a[id]
    ensures DocumentSound(b, namespace, d, partial)
  {
    hide DocumentSound, SamePiece;
    forall v: nat ensures SamePiece(a, b, namespace, d, v) || Matching(b, namespace, d, v) == {} {
      WholeDocumentPieces(a, b, namespace, d, v);
    }
    DocumentStaysSound(a, b, namespace, d, partial, partial);
  }

  lemma {:induction false} DeleteOneKeepsSound(s: Moment, op: Operation, r: Moment, l: Ledger, backend: Backend,
        p: Processing)
    requires op.DeleteOne? && Sound(s, l) && MomentValid(r) && Led(s, op, r, None, backend, p)
    ensures Sound(r, l)
  {
    hide Sound, MomentValid;
    assert PointsOf(s.points, op.namespace, op.id) == TakenBy(s.points, op.namespace, {op.id});
    assert s.points == s.points - TakenBy(s.points, op.namespace, {});
    TakingKeepsSound(s, r, l, op.namespace, if op.deleteFails then {} else {op.id});
  }

  lemma {:induction false} DeleteManyKeepsSound(s: Moment, op: Operation, r: Moment, l: Ledger, backend: Backend,
        p: Processing)
    requires op.DeleteMany? && Sound(s, l) && MomentValid(r) && Led(s, op, r, None, backend, p)
    ensures Sound(r, l)
  {
    hide DocumentsSound, ReindexedElsewhere, WellNamed, Owned, RowValid, UniqueLive, CollectionValid;
    var deleted := if op.commitFails then [] else DeletedOf(s.documents, op.namespace, op.ids);
    SoundIsValid(s, l);
    DeletedMembers(s.documents, op.namespace, op.ids);
    hide Sound;
    var taken := set d | d in deleted && d !in op.failing;
    assert Cleared(s.points, op.namespace, deleted, op.failing) == TakenBy(s.points, op.namespace, taken);
    SoftDeleteAllKeeps(s.points, s.documents, deleted, s.active);
    TakingKeepsSound(s, r, l, op.namespace, taken);
  }

  // ---- Reclaims and switches ----

  lemma {:induction false} ReclaimKeepsSound(s: Moment, op: Operation, r: Moment, l: Ledger, backend: Backend,
        p: Processing)
    requires op.Reclaim? && Sound(s, l) && MomentValid(r) && Led(s, op, r, None, backend, p)
    ensures Sound(r, Noted(l, op, backend))
  {
    hide RowValid, UniqueLive, DocumentSound, SamePiece;
    var m := Noted(l, op, backend);
    if op.version != s.active && !op.fails {
      forall d | Ingested(r.documents, d) ensures DocumentSound(r.points, r.documents[d].namespace, d, m.partial) {
        var ns := s.documents[d].namespace;
        forall v: nat | (ns, v) !in m.partial
          ensures Matching(r.points, ns, d, v) == {}
             || ((ns, v) !in l.partial && SamePiece(s.points, r.points, ns, d, v))
        {
          ReclaimPieces(s.points, op.namespace, op.version, ns, d, v);
        }
        DocumentStaysSound(s.points, r.points, ns, d, l.partial, m.partial);
      }
    }
  }

  lemma {:induction false} ReclaimPieces(points: Points, namespace: string, version: nat, ns: string, d: DocumentId,
        v: nat)
    ensures var b := Reclaimed(points, namespace, version);
      if ns == namespace && v == version then Matching(b, ns, d, v) == {} else SamePiece(points, b, ns, d, v)
  {
  }

  // ---- Ingests ----

  /** What any ingest does to rows and points, whatever of it fails. */
  ghost predicate IngestMove(s: Moment, r: Moment, namespace: string, id: DocumentId) {
    && (forall d | Ingested(r.documents, d) && d != id ::
          && Ingested(s.documents, d) && r.documents[d].namespace == s.documents[d].namespace
          && (PointsStay(s.points, r.points, d) || NoPointsOf(r.points, d)))
    && (forall x | x in r.points && !(x in s.points && r.points[x] == s.points[x]) ::
        IngestedPoint(x, r.points[x], namespace, s.active, id))
    && forall x | x in s.points && s.points[x].namespace != namespace :: x in r.points && r.points[x] == s.points[x]
  }

  lemma {:induction false} IngestKeepsSound(s: Moment, r: Moment, l: Ledger, namespace: string, id: DocumentId)
    requires Sound(s, l) && MomentValid(r) && r.active == s.active && id !in s.documents
    requires IngestMove(s, r, namespace, id)
    ensures Sound(r, l.(ingested := l.ingested + {(namespace, l.active)}))
  {
    hide RowValid, UniqueLive, DocumentSound, SamePiece, WellNamed;
    forall d | Ingested(r.documents, d) ensures DocumentSound(r.points, r.documents[d].namespace, d, l.partial) {
      if d == id {
        NewDocumentSound(s, r, l, namespace, id);
      } else {
        assert DocumentSound(s.points, s.documents[d].namespace, d, l.partial);
        WholeDocumentSound(s.points, r.points, s.documents[d].namespace, d, l.partial);
      }
    }
  }

  lemma {:induction false} NewDocumentSound(s: Moment, r: Moment, l: Ledger, namespace: string, id: DocumentId)
    requires Owned(s.points, s.documents) && id !in s.documents && IngestMove(s, r, namespace, id)
    requires Ingested(r.documents, id) && DocumentValid(r.points, r.documents[id].namespace, id, s.active)
    ensures DocumentSound(r.points, r.documents[id].namespace, id, l.partial)
  {
    var ns := r.documents[id].namespace;
    forall v: nat | v != s.active ensures Matching(r.points, ns, id, v) == {} {
    }
  }

  /** A successful upload brings in the new document's points and takes all of the old one's or none. */
  lemma {:induction false} UploadMoves(s: Moment, r: Moment, p: Processing, namespace: string, filename: string,
      content: Content, was: Option<DocumentId>, id: DocumentId, extra: Metadata, faults: IngestFaults,
      answer: IngestResult)
    requires MomentValid(s) && NewContent(s.documents, namespace, filename, content, was, id)
    requires StoreSucceeds(p, content, faults)
    requires UploadDone(s.documents, r.documents, s.points, r.points, p, s.active, namespace, filename, content, was,
                        id, extra, faults, answer)
    ensures IngestMove(s, r, namespace, id)
  {
    hide RowValid, UniqueLive, WellNamed, Owned, DocumentValid, StoreSucceeds, Added, Superseding, PointsStay,
      NoPointsOf, IngestedPoint, Violates;
    var added := Added(p, namespace, s.active, id, content, extra);
    HiddenValid(s.documents, was);
    AddedValid(s.points, s.documents, p, namespace, id, content, extra, s.active, faults);
    UploadRows(s.documents, r.documents, namespace, filename, content, was, id, answer);
    SupersedingOwned(s.points, s.documents, added, r.documents, namespace, was, id, s.active, faults);
    SupersedingStays(s.points, added, namespace, was, faults);
    forall d | Ingested(r.documents, d) && d != id
      ensures PointsStay(s.points, r.points, d) || NoPointsOf(r.points, d)
    {
      GainedDocument(added, namespace, s.active, id);
      StaysOrGoes(s.points, s.documents, added, namespace, was, id, faults, d);
    }
  }

  lemma {:induction false} SupersedingStays(a: Points, added: Points, namespace: string, was: Option<DocumentId>,
        faults: IngestFaults)
    requires forall x | x in added :: x !in a
    ensures var b := Superseding(a + added, namespace, was, faults);
      forall x | x in a && a[x].namespace != namespace :: x in b && b[x] == a[x]
  {
  }

  lemma {:induction false} GainedDocument(added: Points, namespace: string, version: nat, id: DocumentId)
    requires forall x | x in added :: IngestedPoint(x, added[x], namespace, version, id)
    ensures forall x | x in added :: added[x].document == id
  {
  }

  lemma {:induction false} UploadRows(t: Table, u: Table, namespace: string, filename: string, content: Content,
      was: Option<DocumentId>, id: DocumentId, answer: IngestResult)
    requires NewContent(t, namespace, filename, content, was, id)
    requires exists count :: u == Replaced(t, was, id, NewRow(t, namespace, filename, content, was), count)
    ensures id in u && u[id].namespace == namespace
    ensures forall d: DocumentId | d in t :: d in u && u[d].namespace == t[d].namespace
    ensures forall d: DocumentId | Ingested(u, d) && d != id :: Ingested(t, d)
  {
    HiddenValid(t, was);
  }

  /** A failed ingest leaves every other row as ingested as it was, in its namespace. */
  lemma {:induction false} FailedRows(t: Table, u: Table, p: Processing, namespace: string, filename: string,
        content: Content, id: DocumentId, faults: IngestFaults)
    requires TableValid(t) && id !in t && IngestProblem(t, p, namespace, filename, content, faults).Some?
    requires u == LastTable(t, IngestTables(t, p, namespace, filename, content, id, faults))
    ensures forall d: DocumentId | Ingested(u, d) && d != id :: Ingested(t, d) && u[d].namespace == t[d].namespace
  {
    hide RowValid, UniqueLive, Compensated, NewRow, Cleaned, Hidden, Known;
    DecideIngest(t, p, namespace, filename, content, faults);
    var was := LiveBy(t, namespace, Filename, filename);
    if LiveBy(t, namespace, Hash, content.hash).None? && !(was.Some? && faults.supersedeFails) {
      CompensationRestores(t, namespace, filename, content, was, id, RowCommitted(content, faults), faults);
    }
  }

  lemma {:induction false} IngestMoves(s: Moment, r: Moment, backend: Backend, p: Processing, namespace: string,
      filename: string, content: Content, id: DocumentId, extra: Metadata, faults: IngestFaults)
    requires MomentValid(s) && LedIngest(s, r, backend, p, namespace, filename, content, id, extra, faults)
    ensures IngestMove(s, r, namespace, id)
  {
    hide RowValid, UniqueLive, CollectionValid, UploadDone, IngestTables, LastTable, Known, SameLive, LiveRowsReturn;
    var twin, was := LiveBy(s.documents, namespace, Hash, content.hash),
                     LiveBy(s.documents, namespace, Filename, filename);
    if IngestProblem(s.documents, p, namespace, filename, content, faults) == None {
      var answer :| IngestDone(s.documents, r.documents, s.points, r.points, p, s.active, namespace, filename, content,
                               id, extra, faults, answer);
      if twin.None? {
        UploadMoves(s, r, p, namespace, filename, content, was, id, extra, faults, answer);
      }
    } else {
      FailedRows(s.documents, r.documents, p, namespace, filename, content, id, faults);
    }
  }

  // ---- Jobs ----

  /** A job without residue into a version no ingest wrote to keeps each of its documents sound. */
  lemma {:induction false} JobKeepsDocument(a: Points, b: Points, namespace: string, ids: seq<DocumentId>, source: nat,
      target: nat, embed: Embedder, d: DocumentId, partial: Pairs)
    requires Runnable(a, namespace, ids, source, target) && d in ids
    requires ReindexState(a, b, AllCopies(a, namespace, ids, source, target, embed))
    requires AllOrNone(a, b, Copies(a, namespace, d, source, target, embed))
    requires forall v: nat | v != target :: SamePiece(a, b, namespace, d, v)
    requires DocumentSound(a, namespace, d, partial) && (namespace, source) !in partial
    requires (namespace, target) !in partial
    requires forall id | id in Matching(a, namespace, d, target) :: id.TargetChunkId?
    ensures DocumentSound(b, namespace, d, partial)
  {
    hide AllCopies, Copies, ReindexState, AllOrNone, HoldsCopies, SamePiece, DocumentValid, WellNamed, HasPosition,
      Overwritten;
    assert SamePositions(a, namespace, d, source, target);
    assert DocumentValid(a, namespace, d, source) && DocumentValid(a, namespace, d, target);
    if Matching(a, namespace, d, source) != {} {
      SoundDistinct(a, namespace, d, source);
      ReindexedIsOverwritten(a, namespace, d, source, target, embed);
    }
    WholeAtTarget(a, b, namespace, ids, source, target, embed, d);
    WholeIsValid(a, b, namespace, source, target, embed, d);
    if HoldsCopies(a, b, namespace, d, source, target, embed) {
      CopiesKeepDocument(a, b, namespace, source, target, embed, d, partial);
    } else {
      forall v: nat | (namespace, v) !in partial
        ensures Matching(b, namespace, d, v) == {} || ((namespace, v) !in partial && SamePiece(a, b, namespace, d, v)) {
      }
      DocumentStaysSound(a, b, namespace, d, partial, partial);
    }
  }

  lemma {:induction false} SoundDistinct(points: Points, namespace: string, d: DocumentId, v: nat)
    requires DocumentValid(points, namespace, d, v)
    ensures DistinctPositions(points, namespace, d, v)
  {
  }

  lemma {:induction false} CopiesKeepDocument(a: Points, b: Points, namespace: string, source: nat, target: nat,
      embed: Embedder, d: DocumentId, partial: Pairs)
    requires DocumentSound(a, namespace, d, partial) && (namespace, source) !in partial
    requires (namespace, target) !in partial
    requires forall v: nat | v != target :: SamePiece(a, b, namespace, d, v)
    requires HoldsCopies(a, b, namespace, d, source, target, embed) && DocumentValid(b, namespace, d, target)
    requires source != target
    ensures DocumentSound(b, namespace, d, partial)
  {
    hide HoldsCopies, SamePiece, DocumentValid, HasPosition;
    forall v: nat | (namespace, v) !in partial ensures DocumentValid(b, namespace, d, v) {
      if v != target {
        PieceValid(a, b, namespace, d, v);
      }
    }
    forall v: nat, w: nat | (namespace, v) !in partial && (namespace, w) !in partial
      ensures SamePositions(b, namespace, d, v, w)
    {
      if v == target {
        CopiesPiecePositions(a, b, namespace, source, target, embed, d, w);
      } else if w == target {
        CopiesPiecePositions(a, b, namespace, source, target, embed, d, v);
      } else {
        PiecePositions(a, b, namespace, d, v, w);
      }
    }
  }

  /** Copies stand at the positions of the source, and so at those of every other version. */
  lemma {:induction false} CopiesPiecePositions(a: Points, b: Points, namespace: string, source: nat, target: nat,
      embed: Embedder, d: DocumentId, w: nat)
    requires HoldsCopies(a, b, namespace, d, source, target, embed)
    requires w != target ==> SamePiece(a, b, namespace, d, w) && SamePositions(a, namespace, d, source, w)
    ensures SamePositions(b, namespace, d, target, w) && SamePositions(b, namespace, d, w, target)
  {
    hide HasPosition;
    if w != target && Matching(b, namespace, d, target) != {} && Matching(b, namespace, d, w) != {} {
      SourceOfCopies(a, b, namespace, source, target, embed, d);
      forall p: nat ensures HasPosition(b, namespace, d, target, p) == HasPosition(b, namespace, d, w, p) {
        CopiesPositions(a, b, namespace, d, source, target, embed, p);
        SamePiecePositions(a, b, namespace, d, w, p);
      }
    }
  }

  lemma {:induction false} SourceOfCopies(a: Points, b: Points, namespace: string, source: nat, target: nat,
        embed: Embedder, d: DocumentId)
    requires HoldsCopies(a, b, namespace, d, source, target, embed) && Matching(b, namespace, d, target) != {}
    ensures Matching(a, namespace, d, source) != {}
  {
    var id :| id in Matching(b, namespace, d, target);
    var x := OriginalOf(a, namespace, d, source, target, embed, id);
  }

  /** At every version but the target a job changes no document, at the target none outside its snapshot. */
  lemma {:induction false} JobPieces(s: Moment, r: Moment, ids: seq<DocumentId>, outcome: Option<nat>, backend: Backend,
      namespace: string, target: nat, embed: Embedder, faults: Faults, ns: string, d: DocumentId, v: nat)
    requires Reindexed(s.points, r.points, ids, backend, s.active, namespace, target, embed, faults, outcome)
    requires VersionPart(r.points, v) == VersionPart(s.points, v) || v == target
    requires v == target ==> d !in ids
    ensures SamePiece(s.points, r.points, ns, d, v)
  {
    hide ReindexState, AllCopies, JobStates, JobOutcome;
    if v == target {
      OthersUntouched(s.points, r.points, namespace, ids, s.active, target, embed, ns, d, v);
    } else {
      SourceShared(s.points, r.points, ns, d, v);
    }
  }

  lemma {:induction false} JobDocument(s: Moment, r: Moment, l: Ledger, ids: seq<DocumentId>, outcome: Option<nat>,
      backend: Backend, namespace: string, target: nat, embed: Embedder, faults: Faults, d: DocumentId, partial: Pairs)
    requires Sound(s, l) && Ingested(s.documents, d) && IsSnapshot(ids, s.documents, namespace)
    requires Reindexed(s.points, r.points, ids, backend, s.active, namespace, target, embed, faults, outcome)
    requires forall v | v != target :: VersionPart(r.points, v) == VersionPart(s.points, v)
    requires l.partial <= partial && (namespace, s.active) !in partial
    requires (namespace, target) in partial || ((namespace, target) !in l.ingested && !JobResidue(backend, faults))
    ensures DocumentSound(r.points, s.documents[d].namespace, d, partial)
  {
    hide Reindexed, SamePiece, JobResidue, DocumentSound, VersionPart, TableValid;
    var ns := s.documents[d].namespace;
    assert DocumentSound(s.points, ns, d, l.partial);
    forall v: nat | v != target || d !in ids ensures SamePiece(s.points, r.points, ns, d, v) {
      JobPieces(s, r, ids, outcome, backend, namespace, target, embed, faults, ns, d, v);
    }
    if d in ids && (namespace, target) !in partial {
      assert ns == namespace;
      FewerPairsSound(s.points, ns, d, l.partial, partial);
      TargetIsReindexed(s.points, ns, d, target, l.ingested);
      WholeJobDocument(s, r, ids, outcome, backend, namespace, target, embed, faults, d, partial);
    } else {
      DocumentStaysSound(s.points, r.points, ns, d, l.partial, partial);
    }
  }

  lemma {:induction false} FewerPairsSound(points: Points, namespace: string, d: DocumentId, p: Pairs, q: Pairs)
    requires DocumentSound(points, namespace, d, p) && p <= q
    ensures DocumentSound(points, namespace, d, q)
  {
  }

  lemma {:induction false} TargetIsReindexed(points: Points, namespace: string, d: DocumentId, target: nat,
        ingested: Pairs)
    requires ReindexedElsewhere(points, ingested) && (namespace, target) !in ingested
    ensures forall id | id in Matching(points, namespace, d, target) :: id.TargetChunkId?
  {
  }

  lemma {:induction false} WholeJobDocument(s: Moment, r: Moment, ids: seq<DocumentId>, outcome: Option<nat>,
      backend: Backend, namespace: string, target: nat, embed: Embedder, faults: Faults, d: DocumentId, partial: Pairs)
    requires Reindexed(s.points, r.points, ids, backend, s.active, namespace, target, embed, faults, outcome)
    requires d in ids && !JobResidue(backend, faults) && DocumentSound(s.points, namespace, d, partial)
    requires (namespace, s.active) !in partial && (namespace, target) !in partial
    requires forall v: nat | v != target :: SamePiece(s.points, r.points, namespace, d, v)
    requires forall id | id in Matching(s.points, namespace, d, target) :: id.TargetChunkId?
    ensures DocumentSound(r.points, namespace, d, partial)
  {
    hide SamePiece, JobResidue, DocumentSound, AllOrNone, ReindexState, JobStates, LastOf, JobOutcome;
    JobLeavesWhole(backend, s.active, s.points, namespace, ids, s.active, target, embed, faults, d);
    JobKeepsDocument(s.points, r.points, namespace, ids, s.active, target, embed, d, partial);
  }

  /** A job writes reindexed chunks only. */
  lemma {:induction false} JobWritesReindexed(a: Points, b: Points, ids: seq<DocumentId>, active: nat,
        namespace: string, target: nat, embed: Embedder, ingested: Pairs)
    requires AllDistinct(a, namespace, ids, active) && ReindexedElsewhere(a, ingested)
    requires ReindexState(a, b, AllCopies(a, namespace, ids, active, target, embed))
    ensures ReindexedElsewhere(b, ingested)
  {
    var all := AllCopies(a, namespace, ids, active, target, embed);
    forall id | id in b && (b[id].namespace, b[id].version) !in ingested ensures id.TargetChunkId? {
      if id in all {
        AllCopiesAt(a, namespace, ids, active, target, embed, id);
      } else {
        AgreeAt(a, b, all.Keys, id);
      }
    }
  }

  lemma {:induction false} ReindexKeepsSound(s: Moment, op: Operation, r: Moment, outcome: Option<nat>, l: Ledger,
      backend: Backend, p: Processing)
    requires op.ReindexInto? && Sound(s, l) && MomentValid(r) && Led(s, op, r, outcome, backend, p)
    ensures Sound(r, Noted(l, op, backend))
  {
    hide TableValid, DocumentSound, Reindexed, JobResidue, WellNamed, Owned, IsSnapshot, ReindexedElsewhere,
      VersionPart;
    if op.target != s.active {
      var m := Noted(l, op, backend);
      var ids :| IsSnapshot(ids, s.documents, op.namespace)
                 && Reindexed(s.points, r.points, ids, backend, s.active, op.namespace, op.target, op.embed,
                              op.jobFaults, outcome);
      forall d | Ingested(r.documents, d) ensures DocumentSound(r.points, r.documents[d].namespace, d, m.partial) {
        JobDocument(s, r, l, ids, outcome, backend, op.namespace, op.target, op.embed, op.jobFaults, d, m.partial);
      }
      JobElsewhere(s, r, ids, outcome, backend, op.namespace, op.target, op.embed, op.jobFaults, l.ingested);
    }
  }

  lemma {:induction false} JobElsewhere(s: Moment, r: Moment, ids: seq<DocumentId>, outcome: Option<nat>,
        backend: Backend, namespace: string, target: nat, embed: Embedder, faults: Faults, ingested: Pairs)
    requires Reindexed(s.points, r.points, ids, backend, s.active, namespace, target, embed, faults, outcome)
    requires ReindexedElsewhere(s.points, ingested)
    ensures ReindexedElsewhere(r.points, ingested)
  {
    hide ReindexedElsewhere, ReindexState, JobStates, JobOutcome;
    JobWritesReindexed(s.points, r.points, ids, s.active, namespace, target, embed, ingested);
  }

  /** Every permitted operation keeps what the ledger says true. */
  lemma {:induction false} LedKeepsSound(s: Moment, op: Operation, r: Moment, outcome: Option<nat>, l: Ledger,
      backend: Backend, p: Processing)
    requires Sound(s, l) && Permitted(l, op, backend) && MomentValid(r) && Led(s, op, r, outcome, backend, p)
    ensures Sound(r, Noted(l, op, backend))
  {
    hide TableValid, DocumentSound, LedIngest, LedReindex, WellNamed, Owned, ReindexedElsewhere, UniqueLive;
    match op
    case IngestFile(_, _, _, _, _, _) => IngestOperationKeepsSound(s, op, r, l, backend, p);
    case DeleteOne(_, _, _, _) => DeleteOneKeepsSound(s, op, r, l, backend, p);
    case DeleteMany(_, _, _, _) => DeleteManyKeepsSound(s, op, r, l, backend, p);
    case ReindexInto(_, _, _, _) => ReindexKeepsSound(s, op, r, outcome, l, backend, p);
    case SwitchTo(_) =>
    case Reclaim(_, _, _) => ReclaimKeepsSound(s, op, r, l, backend, p);
  }

  lemma {:induction false} IngestOperationKeepsSound(s: Moment, op: Operation, r: Moment, l: Ledger, backend: Backend,
      p: Processing)
    requires op.IngestFile? && Sound(s, l) && MomentValid(r) && Led(s, op, r, None, backend, p)
    ensures Sound(r, Noted(l, op, backend))
  {
    SoundIsValid(s, l);
    hide MomentValid, TableValid, DocumentSound, IngestMove, Known, IngestDone, SameLive, OnlyGained, LiveRowsReturn,
      IngestTables, LastTable, IngestProblem;
    assert s.active == l.active;
    IngestMoves(s, r, backend, p, op.namespace, op.filename, op.content, op.id, op.extra, op.faults);
    IngestKeepsSound(s, r, l, op.namespace, op.id);
  }
}
