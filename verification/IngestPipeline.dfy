/** The ingest entry point over the documents table and the vector store. */
module Ingest {
  import opened Support
  import opened ChunkIds
  import opened Chunking
  import opened VectorStores
  import opened Embedding
  import opened DocumentTable
  import opened ChunkLinks
  import opened IngestBatch
  import opened IngestRun

  /** The points of a document that the final hard delete takes away. */
  function PointsOf(points: Points, namespace: string, document: DocumentId): set<ChunkId> {
    set id | id in points && points[id].namespace == namespace && points[id].document == document
  }

  /** Does the new row get committed, once processing starts? */
  predicate RowCommitted(content: Content, faults: IngestFaults) {
    !faults.detectFails && content.supported && !faults.insertFails && !faults.commitFails
  }

  /** The first thing that goes wrong once the replaced row is hidden. */
  function ProcessProblem(p: Processing, content: Content, faults: IngestFaults): Option<IngestError> {
    if RowCommitted(content, faults) then ContentProblem(p, content, faults)
    else if !faults.detectFails && !content.supported then Some(UnsupportedType)
    else Some(StorageFailed)
  }

  /** The first thing that goes wrong with an upload whose content is new. */
  function UploadProblem(p: Processing, content: Content, was: Option<DocumentId>,
      faults: IngestFaults): Option<IngestError> {
    if was.Some? && faults.supersedeFails then Some(DatabaseFailed) else ProcessProblem(p, content, faults)
  }

  predicate RowExists(content: Content, was: Option<DocumentId>, faults: IngestFaults) {
    (was.Some? ==> !faults.supersedeFails) && RowCommitted(content, faults)
  }

  /** Is this content already stored under this name, as the row's filename or as an alias? */
  ghost predicate Known(t: Table, namespace: string, filename: string, hash: string) {
    exists d: DocumentId :: IsLive(t, d) && t[d].namespace == namespace && t[d].hash == hash
                            && (t[d].filename == filename || filename in t[d].aliases)
  }

  /** The row that answers for known content, found by its hash. */
  lemma {:induction false} KnownByHash(t: Table, namespace: string, filename: string, hash: string)
    requires UniqueLive(t)
    ensures Known(t, namespace, filename, hash) <==>
      var d := LiveBy(t, namespace, Hash, hash);
      d.Some? && (t[d.value].filename == filename || filename in t[d.value].aliases)
  {
    if d: DocumentId :| IsLive(t, d) && t[d].namespace == namespace && t[d].hash == hash
                        && (t[d].filename == filename || filename in t[d].aliases) {
      var twin := LiveBy(t, namespace, Hash, hash).value;
      if d != twin {
        assert Clash(t[d], t[twin]);
      }
    }
  }

  /** One more name for a row keeps the table valid. */
  lemma {:induction false} AliasKeeps(t: Table, twin: DocumentId, filename: string)
    requires TableValid(t) && IsLive(t, twin) && filename != t[twin].filename && filename !in t[twin].aliases
    ensures TableValid(t[twin := t[twin].(aliases := t[twin].aliases + [filename])])
  {
    var u := t[twin := t[twin].(aliases := t[twin].aliases + [filename])];
    assert RowValid(t, t[twin]);
    ChangeRow(t, u, twin);
    RelabelKeepsUnique(t, u, twin);
  }

  /** A change of a row's aliases or count leaves both indexes satisfied. */
  lemma {:induction false} RelabelKeepsUnique(t: Table, u: Table, id: DocumentId)
    requires UniqueLive(t) && id in t && id in u && u == t[id := u[id]] && u[id].deleted == t[id].deleted
    requires u[id].namespace == t[id].namespace && u[id].filename == t[id].filename && u[id].hash == t[id].hash
    ensures UniqueLive(u)
  {
    forall a, b | IsLive(u, a) && IsLive(u, b) && a != b ensures !Clash(u[a], u[b]) {
      assert IsLive(t, a) && IsLive(t, b);
    }
  }

  /** Changes of rows that leave the live ones and all namespaces alone keep the collection valid. */
  lemma {:induction false} TableChangeKeeps(points: Points, t: Table, u: Table, active: nat)
    requires CollectionValid(points, t, active)
    requires forall d: DocumentId | d in t :: d in u && u[d].namespace == t[d].namespace
    requires forall d: DocumentId | Ingested(u, d) :: Ingested(t, d)
    ensures CollectionValid(points, u, active)
  {
    forall d | Ingested(u, d) ensures DocumentValid(points, u[d].namespace, d, active) {
      assert Ingested(t, d);
    }
  }

  /**
   * After a failed upload the collection is valid exactly when the new row is hidden or what there is of
   * its document is valid; so without stray points it is.
   */
  lemma {:induction false} FailureKeepsCollection(a: Points, t: Table, b: Points, u: Table, active: nat,
      namespace: string, id: DocumentId)
    requires CollectionValid(a, t, active) && OnlyGained(a, b, namespace, active, id) && id !in t
    requires forall d: DocumentId | d in t :: d in u && u[d].namespace == t[d].namespace
    requires forall d: DocumentId | Ingested(u, d) && d != id :: Ingested(t, d)
    requires (b != a ==> id in u) && (id in u ==> u[id].namespace == namespace)
    ensures CollectionValid(b, u, active) <==> (Ingested(u, id) ==> DocumentValid(b, namespace, id, active))
    ensures b == a ==> CollectionValid(b, u, active)
  {
    FreshDocument(a, t, id);
    if b == a {
      assert Matching(a, namespace, id, active) == {};
    }
    if Ingested(u, id) ==> DocumentValid(b, namespace, id, active) {
      CollectionKept(a, t, b, u, active, id);
    }
  }

  /** The table after a successful upload: the old row hidden, the new one live with its count if that was recorded. */
  function Replaced(t: Table, was: Option<DocumentId>, id: DocumentId, row: Document, count: Option<nat>): Table {
    Hidden(t, was)[id := row.(chunkCount := count)]
  }

  lemma {:induction false} ReplacedValid(t: Table, namespace: string, filename: string, content: Content,
      was: Option<DocumentId>, id: DocumentId, count: Option<nat>)
    requires NewContent(t, namespace, filename, content, was, id)
    ensures TableValid(Replaced(t, was, id, NewRow(t, namespace, filename, content, was), count))
  {
    hide UniqueLive, Violates;
    var row := NewRow(t, namespace, filename, content, was);
    var started, u := Started(t, was, id, row, true), Replaced(t, was, id, row, count);
    StartedValid(t, namespace, filename, content, was, id, true);
    assert RowValid(started, started[id]);
    ChangeRow(started, u, id);
    RelabelKeepsUnique(started, u, id);
  }

  /**
   * The points after a successful upload: the new document's added, the old one's gone if their delete went
   * through.
   */
  function Superseding(full: Points, namespace: string, was: Option<DocumentId>, faults: IngestFaults): Points {
    if was.Some? && !faults.oldDeleteFails then full - PointsOf(full, namespace, was.value) else full
  }

  /** The final hard delete takes all points of the replaced document or none, and none of any other. */
  lemma {:induction false} StaysOrGoes(a: Points, t: Table, added: Points, namespace: string, was: Option<DocumentId>,
      id: DocumentId, faults: IngestFaults, d: DocumentId)
    requires Owned(a, t) && d != id && d in t && forall x | x in added :: x !in a && added[x].document == id
    ensures var b := Superseding(a + added, namespace, was, faults); PointsStay(a, b, d) || NoPointsOf(b, d)
  {
    if was == Some(d) && t[d].namespace == namespace {
      assert forall x | x in a + added && (a + added)[x].document == d :: x in a;
    }
  }

  /** Every point of the new collection was there or was added; all are well named and owned by rows. */
  lemma {:induction false} SupersedingOwned(a: Points, t: Table, added: Points, u: Table, namespace: string,
      was: Option<DocumentId>, id: DocumentId, active: nat, faults: IngestFaults)
    requires WellNamed(a) && Owned(a, t)
    requires forall x | x in added :: x !in a && IngestedPoint(x, added[x], namespace, active, id)
    requires id in u && u[id].namespace == namespace
    requires forall d: DocumentId | d in t :: d in u && u[d].namespace == t[d].namespace
    ensures var b := Superseding(a + added, namespace, was, faults);
      && WellNamed(b) && Owned(b, u)
      && forall x | x in b :: (x in a && b[x] == a[x]) || (x in added && b[x] == added[x] && b[x].document == id)
  {
    hide PointsOf;
  }

  /** One document's points come in, those of a row no longer live may go: the collection stays valid. */
  lemma {:induction false} ReplacementKeeps(a: Points, t: Table, added: Points, u: Table, namespace: string,
      was: Option<DocumentId>, id: DocumentId, active: nat, faults: IngestFaults)
    requires CollectionValid(a, t, active) && id !in t && was != Some(id)
    requires forall x | x in added :: x !in a && IngestedPoint(x, added[x], namespace, active, id)
    requires DocumentValid(a + added, namespace, id, active)
    requires id in u && u[id].namespace == namespace
    requires forall d: DocumentId | d in t :: d in u && u[d].namespace == t[d].namespace
    requires forall d: DocumentId | Ingested(u, d) && d != id :: Ingested(t, d)
    ensures CollectionValid(Superseding(a + added, namespace, was, faults), u, active)
  {
    hide WellNamed, Owned, DocumentValid;
    var full := a + added;
    var b := Superseding(full, namespace, was, faults);
    SupersedingOwned(a, t, added, u, namespace, was, id, active, faults);
    assert Matching(b, namespace, id, active) == Matching(full, namespace, id, active);
    DocumentValidSame(full, b, namespace, id, active);
    forall d: DocumentId | Ingested(u, d) && d != id ensures PointsStay(a, b, d) || NoPointsOf(b, d) {
      StaysOrGoes(a, t, added, namespace, was, id, faults, d);
    }
    CollectionKept(a, t, b, u, active, id);
  }

  lemma {:induction false} StoredIsChunked(p: Processing, content: Content, faults: IngestFaults)
    requires StoreSucceeds(p, content, faults)
    ensures ChunksOf(p.strategy, content.elements, p.decodes).Ok?
  {
  }

  lemma {:induction false} NothingHappened(t: Table, points: Points, namespace: string, active: nat, id: DocumentId)
    ensures SameLive(t, t) && OnlyGained(points, points, namespace, active, id)
  {
  }

  /** What a successful ingest adds is new, well named and valid on its own. */
  lemma {:induction false} AddedValid(a: Points, t: Table, p: Processing, namespace: string, id: DocumentId,
      content: Content, extra: Metadata, active: nat, faults: IngestFaults)
    requires WellNamed(a) && Owned(a, t) && id !in t && StoreSucceeds(p, content, faults)
    ensures var added := Added(p, namespace, active, id, content, extra);
      && (forall x | x in added :: x !in a && IngestedPoint(x, added[x], namespace, active, id))
      && DocumentValid(a + added, namespace, id, active)
  {
    hide IngestedPoint, DocumentValid, IngestEntries, LinksResolve, Written, WellNamed;
    var chunks := ChunksOf(p.strategy, content.elements, p.decodes).value;
    assert Added(p, namespace, active, id, content, extra)
         == Written(IngestEntries(namespace, active, id, chunks, p.embed, p.sparse, extra));
    FreshDocument(a, t, id);
    IngestIdsFree(a, namespace, active, id, chunks, p.embed, p.sparse, extra);
    StrategyLinksResolve(p.strategy, content.elements, p.decodes);
    IngestedDocumentValid(a, namespace, active, id, chunks, p.embed, p.sparse, extra);
  }

  /** After a successful upload every live document, the new one included, is valid. */
  lemma {:induction false} SuccessKeepsCollection(a: Points, t: Table, p: Processing, namespace: string,
      filename: string, content: Content, was: Option<DocumentId>, id: DocumentId, extra: Metadata, active: nat,
      count: Option<nat>, faults: IngestFaults)
    requires CollectionValid(a, t, active) && NewContent(t, namespace, filename, content, was, id)
    requires StoreSucceeds(p, content, faults)
    ensures CollectionValid(Superseding(a + Added(p, namespace, active, id, content, extra), namespace, was, faults),
                            Replaced(t, was, id, NewRow(t, namespace, filename, content, was), count), active)
  {
    hide UniqueLive, RowValid, WellNamed, Owned, DocumentValid, StoreSucceeds, Added, Violates, IngestedPoint,
      Superseding;
    var u := Replaced(t, was, id, NewRow(t, namespace, filename, content, was), count);
    HiddenValid(t, was);
    AddedValid(a, t, p, namespace, id, content, extra, active, faults);
    ReplacementKeeps(a, t, Added(p, namespace, active, id, content, extra), u, namespace, was, id, active, faults);
  }

  /** What a search sees depends on the live rows alone, and on Qdrant not even on them. */
  lemma {:induction false} SameView(backend: Backend, points: Points, t: Table, u: Table, active: nat,
      namespace: string)
    requires backend.Pgvector? ==> SameLive(t, u)
    ensures SearchView(backend, points, active, namespace, Live(t))
         == SearchView(backend, points, active, namespace, Live(u))
  {
    if backend.Pgvector? {
      forall d: DocumentId ensures d in Live(t) <==> d in Live(u) {
        assert IsLive(t, d) <==> IsLive(u, d);
      }
    }
  }

  /**
   * Points of a superseded row never show on pgvector; on Qdrant, which does not join the documents
   * table, they show exactly when their hard delete did not happen.
   */
  lemma {:induction false} SupersededHidden(backend: Backend, a: Points, t: Table, namespace: string, was: DocumentId,
      added: Points, active: nat, u: Table, faults: IngestFaults, id: ChunkId)
    requires id in SearchView(backend, a, active, namespace, Live(t)) && a[id].document == was && id !in added
    requires !IsLive(u, was)
    ensures id in SearchView(backend, Superseding(a + added, namespace, Some(was), faults), active, namespace, Live(u))
       <==> backend.Qdrant? && faults.oldDeleteFails
  {
    var full := a + added;
    assert id in full && full[id] == a[id];
  }

  predicate IsNameOf(t: Table, d: DocumentId, filename: string)
    requires d in t
  {
    t[d].filename == filename || filename in t[d].aliases
  }

  /** The table after an ingest of known content: as it was, or with one more alias. */
  function Aliased(t: Table, twin: DocumentId, filename: string, faults: IngestFaults): Table
    requires twin in t
  {
    if IsNameOf(t, twin, filename) || faults.aliasFails then t
    else t[twin := t[twin].(aliases := t[twin].aliases + [filename])]
  }

  /** What an ingest of known content did. */
  ghost predicate DedupDone(t: Table, u: Table, filename: string, twin: DocumentId, faults: IngestFaults,
      answer: IngestResult) {
    && twin in t
    && var row := t[twin];
    && u == Aliased(t, twin, filename, faults) && twin in u
    && answer == if filename == row.filename then Exists(twin, row.version, row.supersedes)
                 else Alias(twin, |u[twin].aliases|, row.version, row.supersedes)
  }

  /** What a successful upload did. */
  ghost predicate UploadDone(t: Table, u: Table, a: Points, b: Points, p: Processing, active: nat, namespace: string,
      filename: string, content: Content, was: Option<DocumentId>, id: DocumentId, extra: Metadata,
      faults: IngestFaults, answer: IngestResult)
  {
    && (was.Some? ==> was.value in t) && ChunksOf(p.strategy, content.elements, p.decodes).Ok?
    && var row := NewRow(t, namespace, filename, content, was);
    var n := |ChunksOf(p.strategy, content.elements, p.decodes).value|;
    && answer == New(id, n, row.version, was)
    && u == Replaced(t, was, id, row, if faults.countFails then None else Some(n))
    && b == Superseding(a + Added(p, namespace, active, id, content, extra), namespace, was, faults)
  }

  /**
   * What a failed upload left: at most stray points of the new document, and the live rows as they were
   * exactly when both compensations worked.
   */
  ghost predicate UploadUndone(t: Table, u: Table, a: Points, b: Points, backend: Backend, namespace: string,
        active: nat, content: Content, was: Option<DocumentId>, id: DocumentId, faults: IngestFaults)
  {
    && OnlyGained(a, b, namespace, active, id) && (forall d | d in u :: d in t || d == id)
    && (!LeavesResidue(backend, faults.store) ==> b == a)
    && (SameLive(t, u) <==> && (RowExists(content, was, faults) ==> !faults.cleanupFails)
                            && (was.Some? && !faults.supersedeFails ==> !faults.restoreFails))
  }

  /** The count recorded with a successful upload, if that update goes through. */
  ghost function Recorded(p: Processing, content: Content, faults: IngestFaults): Option<nat> {
    var chunks := ChunksOf(p.strategy, content.elements, p.decodes);
    if faults.countFails || chunks.Err? then None else Some(|chunks.value|)
  }

  /** The tables committed once the old row is hidden: the new row in, then its count or the two compensations. */
  ghost function ProcessTables(t: Table, p: Processing, namespace: string, filename: string, content: Content,
      was: Option<DocumentId>, id: DocumentId, faults: IngestFaults): seq<Table>
    requires was.Some? ==> was.value in t
  {
    var row, inserted := NewRow(t, namespace, filename, content, was), RowCommitted(content, faults);
    var started := Started(t, was, id, row, inserted);
    if ProcessProblem(p, content, faults) == None
       then [started, Replaced(t, was, id, row, Recorded(p, content, faults))]
    else [started, Cleaned(started, id, inserted, faults), Compensated(started, was, id, inserted, faults)]
  }

  /** The tables an upload commits, in order. */
  ghost function UploadTables(t: Table, p: Processing, namespace: string, filename: string, content: Content,
      was: Option<DocumentId>, id: DocumentId, faults: IngestFaults): seq<Table>
    requires was.Some? ==> was.value in t
  {
    var rest := ProcessTables(t, p, namespace, filename, content, was, id, faults);
    if was.None? then rest else if faults.supersedeFails then [] else [Hidden(t, was)] + rest
  }

  /** The tables an ingest commits, in order. */
  ghost function IngestTables(t: Table, p: Processing, namespace: string, filename: string, content: Content,
      id: DocumentId, faults: IngestFaults): seq<Table>
    requires UniqueLive(t)
  {
    var twin := LiveBy(t, namespace, Hash, content.hash);
    if twin.Some? then [Aliased(t, twin.value, filename, faults)]
    else UploadTables(t, p, namespace, filename, content, LiveBy(t, namespace, Filename, filename), id, faults)
  }

  /** The table a run of commits ends with. */
  ghost function LastTable(t: Table, tables: seq<Table>): Table {
    if tables == [] then t else tables[|tables| - 1]
  }

  /** The error an ingest ends with, None when it returns a result. */
  ghost function IngestProblem(t: Table, p: Processing, namespace: string, filename: string, content: Content,
      faults: IngestFaults): Option<IngestError>
    requires UniqueLive(t)
  {
    if LiveBy(t, namespace, Hash, content.hash).Some?
    then if !faults.aliasFails || Known(t, namespace, filename, content.hash) then None else Some(DatabaseFailed)
    else UploadProblem(p, content, LiveBy(t, namespace, Filename, filename), faults)
  }

  /** What an ingest that returned without an error did. */
  ghost predicate IngestDone(t: Table, u: Table, a: Points, b: Points, p: Processing, active: nat, namespace: string,
      filename: string, content: Content, id: DocumentId, extra: Metadata, faults: IngestFaults, answer: IngestResult)
    requires UniqueLive(t)
  {
    var twin := LiveBy(t, namespace, Hash, content.hash);
    if twin.Some? then b == a && DedupDone(t, u, filename, twin.value, faults, answer)
    else UploadDone(t, u, a, b, p, active, namespace, filename, content, LiveBy(t, namespace, Filename, filename), id,
                    extra, faults, answer)
  }

  /**
   * Exactly when a failed ingest leaves the live rows as they were: both compensating updates it needed
   * went through.
   */
  ghost predicate LiveRowsReturn(t: Table, namespace: string, filename: string, content: Content, faults: IngestFaults)
    requires UniqueLive(t)
  {
    var was := LiveBy(t, namespace, Filename, filename);
    LiveBy(t, namespace, Hash, content.hash).Some?
    || ((RowExists(content, was, faults) ==> !faults.cleanupFails)
        && (was.Some? && !faults.supersedeFails ==> !faults.restoreFails))
  }

  lemma {:induction false} NowKnown(t: Table, d: DocumentId, namespace: string, filename: string, hash: string)
    requires IsLive(t, d) && t[d].namespace == namespace && t[d].hash == hash
    requires t[d].filename == filename || filename in t[d].aliases
    ensures Known(t, namespace, filename, hash)
  {
  }

  lemma {:induction false} KnownSucceeds(t: Table, p: Processing, namespace: string, filename: string,
      content: Content, faults: IngestFaults)
    requires UniqueLive(t) && Known(t, namespace, filename, content.hash)
    ensures IngestProblem(t, p, namespace, filename, content, faults) == None
  {
    KnownByHash(t, namespace, filename, content.hash);
  }

  /** The two branches of an ingest, by whether the content has a live twin. */
  lemma {:induction false} DecideIngest(t: Table, p: Processing, namespace: string, filename: string,
      content: Content, faults: IngestFaults)
    requires UniqueLive(t)
    ensures var twin := LiveBy(t, namespace, Hash, content.hash); var was := LiveBy(t, namespace, Filename, filename);
      var known := twin.Some? && (t[twin.value].filename == filename || filename in t[twin.value].aliases);
      && (Known(t, namespace, filename, content.hash) <==> known)
      && IngestProblem(t, p, namespace, filename, content, faults)
         == (if twin.None? then UploadProblem(p, content, was, faults)
             else if known || !faults.aliasFails then None else Some(DatabaseFailed))
      && (LiveRowsReturn(t, namespace, filename, content, faults)
          <==> (|| twin.Some?
                || ((RowExists(content, was, faults) ==> !faults.cleanupFails)
                    && (was.Some? && !faults.supersedeFails ==> !faults.restoreFails))))
      && SameLive(t, t)
  {
    KnownByHash(t, namespace, filename, content.hash);
  }

  // ---- The row of a new version ----

  /** No live row of the namespace has this content. */
  ghost predicate IsNewContent(t: Table, namespace: string, hash: string) {
    forall d: DocumentId | d in t && t[d].deleted == None && t[d].namespace == namespace :: t[d].hash != hash
  }

  /** q is the live row of the namespace with this filename. */
  ghost predicate Holds(t: Table, q: DocumentId, namespace: string, filename: string) {
    q in t && t[q].deleted == None && t[q].namespace == namespace && t[q].filename == filename
  }

  /**
   * The row u has under id: new content under its name, one version after the row of t that held the name
   * and superseding it, or the first of its name.
   */
  ghost predicate IsNewVersion(t: Table, u: Table, namespace: string, filename: string, hash: string, id: DocumentId) {
    && id in u && u[id].namespace == namespace && u[id].filename == filename
    && u[id].hash == hash && u[id].aliases == []
    && (forall q: DocumentId | Holds(t, q, namespace, filename) ::
        u[id].supersedes == Some(q) && u[id].version == t[q].version + 1)
    && ((forall q: DocumentId :: !Holds(t, q, namespace, filename)) ==> u[id].supersedes == None && u[id].version == 1)
  }

  lemma {:induction false} NewRowIsNewVersion(t: Table, u: Table, namespace: string, filename: string, content: Content,
      was: Option<DocumentId>, id: DocumentId)
    requires NewContent(t, namespace, filename, content, was, id) && id in u
    requires var row := NewRow(t, namespace, filename, content, was);
      u[id] == row.(deleted := u[id].deleted, chunkCount := u[id].chunkCount)
    ensures IsNewVersion(t, u, namespace, filename, content.hash, id)
  {
    HolderIs(t, namespace, filename, content, was, id);
  }

  /** A chain looks only at what rows supersede and at their versions. */
  lemma {:induction false} HistorySame(t: Table, u: Table, q: DocumentId)
    requires TableValid(t) && TableValid(u) && q in t
    requires forall d | d in t :: d in u && u[d].supersedes == t[d].supersedes && u[d].version == t[d].version
    ensures History(u, q) == History(t, q)
    decreases t[q].version
  {
    assert RowValid(t, t[q]) && RowValid(u, u[q]);
    if t[q].supersedes.Some? {
      HistorySame(t, u, t[q].supersedes.value);
    }
  }

  /** Every table an upload commits holds the new version's row as it should be, if it holds the id at all. */
  lemma {:induction false} TablesRecordVersion(t: Table, p: Processing, namespace: string, filename: string,
      content: Content, was: Option<DocumentId>, id: DocumentId, faults: IngestFaults, u: Table)
    requires NewContent(t, namespace, filename, content, was, id)
    requires u in UploadTables(t, p, namespace, filename, content, was, id, faults) && id in u
    ensures IsNewVersion(t, u, namespace, filename, content.hash, id)
  {
    hide UniqueLive, RowValid, NewRow, Violates;
    var row, inserted := NewRow(t, namespace, filename, content, was), RowCommitted(content, faults);
    var started := Started(t, was, id, row, inserted);
    HiddenValid(t, was);
    CleanedLive(t, namespace, filename, content, was, id, inserted, faults);
    RestoredRow(Cleaned(started, id, inserted, faults), was, faults, id);
    NewRowHasNoMark(t, namespace, filename, content, was);
    assert u[id] == row.(deleted := u[id].deleted, chunkCount := u[id].chunkCount);
    NewRowIsNewVersion(t, u, namespace, filename, content, was, id);
  }

  lemma {:induction false} NewRowHasNoMark(t: Table, namespace: string, filename: string, content: Content,
      was: Option<DocumentId>)
    requires was.Some? ==> was.value in t
    ensures var row := NewRow(t, namespace, filename, content, was); row.deleted == None && row.chunkCount == None
  {
  }

  lemma {:induction false} RestoredRow(t: Table, was: Option<DocumentId>, faults: IngestFaults, id: DocumentId)
    ensures id in Restored(t, was, faults) <==> id in t
    ensures id in t && was != Some(id) ==> Restored(t, was, faults)[id] == t[id]
  {
  }

  /**
   * What a successful upload leaves in the table: the new version live with its count, the old one
   * superseded, its history extended.
   */
  ghost predicate VersionRecorded(t: Table, u: Table, namespace: string, filename: string, hash: string, id: DocumentId,
      count: Option<nat>)
    requires TableValid(t) && TableValid(u)
  {
    && IsNewVersion(t, u, namespace, filename, hash, id) && u[id].deleted == None && u[id].chunkCount == count
    && (forall q: DocumentId | Holds(t, q, namespace, filename) ::
          && q in u && u[q] == t[q].(deleted := Some(Superseded))
          && History(u, id) == [id] + History(t, q))
    && (forall d: DocumentId | d in t && !Holds(t, d, namespace, filename) :: d in u && u[d] == t[d])
    && (forall d | d in u :: d in t || d == id)
  }

  lemma {:induction false} UploadRecordsVersion(t: Table, u: Table, namespace: string, filename: string,
        content: Content, was: Option<DocumentId>, id: DocumentId, count: Option<nat>)
    requires NewContent(t, namespace, filename, content, was, id)
    requires u == Replaced(t, was, id, NewRow(t, namespace, filename, content, was), count)
    ensures TableValid(u) && VersionRecorded(t, u, namespace, filename, content.hash, id, count)
  {
    ReplacedValid(t, namespace, filename, content, was, id, count);
    HiddenValid(t, was);
    NewRowHasNoMark(t, namespace, filename, content, was);
    NewRowIsNewVersion(t, u, namespace, filename, content, was, id);
    forall q | Holds(t, q, namespace, filename)
      ensures q in u && u[q] == t[q].(deleted := Some(Superseded)) && History(u, id) == [id] + History(t, q)
    {
      assert u[id].supersedes == Some(q);
      HistorySame(t, u, q);
    }
    forall d | d in t && !Holds(t, d, namespace, filename) ensures d in u && u[d] == t[d] {
      assert was != Some(d);
    }
  }

  /**
   * What a successful upload leaves in the store: every chunk of the document, embedded as it is, and no other
   * point of it; of the row that held the name nothing, if its delete went through; all else as it was.
   */
  ghost predicate ContentStored(t: Table, a: Points, b: Points, p: Processing, active: nat, namespace: string,
      filename: string, content: Content, id: DocumentId, extra: Metadata, faults: IngestFaults)
  {
    var chunks := ChunksOf(p.strategy, content.elements, p.decodes);
    && chunks.Ok?
    && (forall i | 0 <= i < |chunks.value| ::
          && IngestChunkId(id, i) in b
          && HoldsChunk(b[IngestChunkId(id, i)], namespace, active, id, chunks.value, i, p.embed, p.sparse, extra))
    && (forall x | x in b && b[x].document == id :: x.IngestChunkId? && x.document == id && x.position < |chunks.value|)
    && (forall x | x in b && b[x].document != id :: x in a && b[x] == a[x])
    && forall x | x in a :: x in b <==> faults.oldDeleteFails || !Holds(t, a[x].document, namespace, filename)
  }

  lemma {:induction false} UploadStoresContent(t: Table, a: Points, p: Processing, active: nat, namespace: string,
      filename: string, content: Content, was: Option<DocumentId>, id: DocumentId, extra: Metadata,
      faults: IngestFaults)
    requires WellNamed(a) && Owned(a, t) && NewContent(t, namespace, filename, content, was, id)
    requires StoreSucceeds(p, content, faults)
    ensures ContentStored(t, a,
                          Superseding(a + Added(p, namespace, active, id, content, extra), namespace, was, faults), p,
                          active, namespace, filename, content, id, extra, faults)
  {
    hide WellNamed, UniqueLive, RowValid, HoldsChunk, StoreSucceeds, IngestEntries;
    StoredIsChunked(p, content, faults);
    var chunks := ChunksOf(p.strategy, content.elements, p.decodes).value;
    var added := Added(p, namespace, active, id, content, extra);
    FreshDocument(a, t, id);
    StrategyLinksResolve(p.strategy, content.elements, p.decodes);
    IngestIdsFree(a, namespace, active, id, chunks, p.embed, p.sparse, extra);
    IngestWrites(namespace, active, id, chunks, p.embed, p.sparse, extra);
    forall i | 0 <= i < |chunks|
      ensures IngestChunkId(id, i) in added
      ensures HoldsChunk(added[IngestChunkId(id, i)], namespace, active, id, chunks, i, p.embed, p.sparse, extra)
    {
      IngestHoldsChunk(namespace, active, id, chunks, i, p.embed, p.sparse, extra);
    }
    HolderIs(t, namespace, filename, content, was, id);
    SupersedingTakes(t, a, added, namespace, filename, was, id, faults);
  }

  /**
   * New content made the next version of its name: the table says so, the answer says the same, and the
   * store holds the content.
   */
  ghost predicate NewVersionMade(t: Table, u: Table, a: Points, b: Points, p: Processing, active: nat,
      namespace: string, filename: string, content: Content, id: DocumentId, extra: Metadata, faults: IngestFaults,
      answer: IngestResult) {
    && TableValid(t) && TableValid(u)
    && var chunks := ChunksOf(p.strategy, content.elements, p.decodes);
    && chunks.Ok?
    && VersionRecorded(t, u, namespace, filename, content.hash, id,
                       if faults.countFails then None else Some(|chunks.value|))
    && answer == New(id, |chunks.value|, u[id].version, u[id].supersedes)
    && ContentStored(t, a, b, p, active, namespace, filename, content, id, extra, faults)
  }

  lemma {:induction false} UploadMakesVersion(t: Table, u: Table, a: Points, b: Points, p: Processing, active: nat,
      namespace: string, filename: string, content: Content, was: Option<DocumentId>, id: DocumentId, extra: Metadata,
      faults: IngestFaults, answer: IngestResult)
    requires WellNamed(a) && Owned(a, t) && NewContent(t, namespace, filename, content, was, id)
    requires UploadProblem(p, content, was, faults) == None
    requires UploadDone(t, u, a, b, p, active, namespace, filename, content, was, id, extra, faults, answer)
    ensures NewVersionMade(t, u, a, b, p, active, namespace, filename, content, id, extra, faults, answer)
  {
    hide WellNamed, Owned, UniqueLive, RowValid, Added, ContentStored, IsNewVersion, StoreSucceeds, ChunksOf, History,
      Holds, Superseding, UploadProblem;
    UploadedStores(p, content, was, faults);
    var n := |ChunksOf(p.strategy, content.elements, p.decodes).value|;
    var count := if faults.countFails then None else Some(n);
    UploadRecordsVersion(t, u, namespace, filename, content, was, id, count);
    RowOfVersion(t, u, namespace, filename, content, was, id, count);
    UploadStoresContent(t, a, p, active, namespace, filename, content, was, id, extra, faults);
  }

  lemma {:induction false} UploadedStores(p: Processing, content: Content, was: Option<DocumentId>,
      faults: IngestFaults)
    requires UploadProblem(p, content, was, faults) == None
    ensures StoreSucceeds(p, content, faults)
  {
  }

  lemma {:induction false} RowOfVersion(t: Table, u: Table, namespace: string, filename: string, content: Content,
      was: Option<DocumentId>, id: DocumentId, count: Option<nat>)
    requires was.Some? ==> was.value in t
    requires u == Replaced(t, was, id, NewRow(t, namespace, filename, content, was), count)
    ensures id in u && u[id].supersedes == was
    ensures u[id].version == NewRow(t, namespace, filename, content, was).version
  {
  }

  lemma {:induction false} TablesHaveVersion(t: Table, p: Processing, namespace: string, filename: string,
      content: Content, was: Option<DocumentId>, id: DocumentId, faults: IngestFaults)
    requires NewContent(t, namespace, filename, content, was, id)
    ensures forall w | w in UploadTables(t, p, namespace, filename, content, was, id, faults) && id in w ::
      IsNewVersion(t, w, namespace, filename, content.hash, id)
  {
    hide UniqueLive, RowValid, IsNewVersion, UploadTables;
    forall w | w in UploadTables(t, p, namespace, filename, content, was, id, faults) && id in w
      ensures IsNewVersion(t, w, namespace, filename, content.hash, id)
    {
      TablesRecordVersion(t, p, namespace, filename, content, was, id, faults, w);
    }
  }

  lemma {:induction false} HolderIs(t: Table, namespace: string, filename: string, content: Content,
      was: Option<DocumentId>, id: DocumentId)
    requires NewContent(t, namespace, filename, content, was, id)
    ensures forall q: DocumentId :: Holds(t, q, namespace, filename) <==> was == Some(q)
  {
    forall q: DocumentId | Holds(t, q, namespace, filename) ensures was == Some(q) {
      assert IsLive(t, q) && was.Some?;
      if q != was.value {
        assert Clash(t[q], t[was.value]);
      }
    }
  }

  lemma {:induction false} SupersedingTakes(t: Table, a: Points, added: Points, namespace: string, filename: string,
      was: Option<DocumentId>, id: DocumentId, faults: IngestFaults)
    requires Owned(a, t) && id !in t && forall q: DocumentId :: Holds(t, q, namespace, filename) <==> was == Some(q)
    requires forall x | x in added :: x !in a && added[x].document == id
    ensures var b := Superseding(a + added, namespace, was, faults);
      && (forall x | x in b && b[x].document != id :: x in a && b[x] == a[x])
      && (forall x | x in a :: x in b <==> faults.oldDeleteFails || !Holds(t, a[x].document, namespace, filename))
      && (forall x | x in added :: x in b && b[x] == added[x])
      && (forall x | x in b && b[x].document == id :: x in added)
  {
    forall x | x in a ensures a[x].document in t && a[x].namespace == t[a[x].document].namespace {
    }
    if was.Some? {
      assert Holds(t, was.value, namespace, filename);
    }
  }

  // ---- When an ingest succeeds ----

  /**
   * What an upload of new content needs: no step fails, the type is supported, the configuration fits, there
   * is text, and the providers answer with one vector per chunk.
   */
  ghost predicate NothingFails(p: Processing, content: Content, takesOver: bool, faults: IngestFaults) {
    && (takesOver ==> !faults.supersedeFails) && !faults.detectFails && content.supported
    && !faults.insertFails && !faults.commitFails && !faults.extractFails && faults.store == NoFault
    && p.strategy.overlap < p.strategy.size
    && var chunks := ChunksOf(p.strategy, content.elements, p.decodes);
    && chunks.Ok? && |chunks.value| > 0
    && (faults.embedding == Embeds || faults.embedding == Returns(|chunks.value|))
    && (p.sparse.Some? ==> faults.sparse == Embeds || faults.sparse == Returns(|chunks.value|))
  }

  lemma {:induction false} SucceedsIff(t: Table, p: Processing, namespace: string, filename: string, content: Content,
      was: Option<DocumentId>, id: DocumentId, faults: IngestFaults)
    requires NewContent(t, namespace, filename, content, was, id)
    ensures UploadProblem(p, content, was, faults) == None
       <==> NothingFails(p, content, exists q: DocumentId :: Holds(t, q, namespace, filename), faults)
  {
    HolderIs(t, namespace, filename, content, was, id);
    assert was.Some? ==> Holds(t, was.value, namespace, filename);
  }

  /** The live row of the namespace with this content. */
  ghost predicate HasContent(t: Table, q: DocumentId, namespace: string, hash: string) {
    q in t && t[q].deleted == None && t[q].namespace == namespace && t[q].hash == hash
  }

  /**
   * What an upload of content that row q has already comes to: a duplicate under the row's filename, an alias
   * it has, or one more alias if that can be recorded. Nothing else changes.
   */
  ghost predicate AnsweredBy(t: Table, u: Table, q: DocumentId, filename: string, aliasFails: bool,
      r: Result<IngestResult, IngestError>)
    requires q in t
  {
    var row := t[q];
    if filename == row.filename then u == t && r == Ok(Exists(q, row.version, row.supersedes))
    else if filename in row.aliases then u == t && r == Ok(Alias(q, |row.aliases|, row.version, row.supersedes))
    else if aliasFails then u == t && r == Err(DatabaseFailed)
    else && u == t[q := row.(aliases := row.aliases + [filename])]
         && r == Ok(Alias(q, |row.aliases| + 1, row.version, row.supersedes))
  }

  lemma {:induction false} TwinIs(t: Table, namespace: string, hash: string)
    requires UniqueLive(t)
    ensures forall q: DocumentId :: HasContent(t, q, namespace, hash) <==> LiveBy(t, namespace, Hash, hash) == Some(q)
  {
    forall q: DocumentId | HasContent(t, q, namespace, hash) ensures LiveBy(t, namespace, Hash, hash) == Some(q) {
      var twin := LiveBy(t, namespace, Hash, hash);
      assert IsLive(t, q) && twin.Some?;
      if q != twin.value {
        assert Clash(t[q], t[twin.value]);
      }
    }
  }

  class IngestPipeline {
    const store: VectorStore
    const processing: Processing
    var documents: Table

    constructor (store: VectorStore, processing: Processing)
      requires store.Valid() && store.points == map[]
      ensures this.store == store && this.processing == processing && documents == map[] && Valid()
    {
      this.store := store;
      this.processing := processing;
      documents := map[];
    }

    /** The invariant of every sequential run of ingests, deletions and reindexes. */
    ghost predicate Valid()
      reads this, store
    {
      store.Valid() && TableValid(documents) && CollectionValid(store.points, documents, store.active)
    }

    /** Is the row of an ingest hidden, or what the store holds of its document valid? */
    ghost predicate NewRowValid(namespace: string, id: DocumentId)
      reads this, store
    {
      Ingested(documents, id) ==> DocumentValid(store.points, namespace, id, store.active)
    }

    /** The compensating updates, cleanup first, each in its own session. */
    method Compensate(was: Option<DocumentId>, id: DocumentId, inserted: bool,
        faults: IngestFaults) returns (ghost tables: seq<Table>)
      modifies this`documents
      ensures documents == Compensated(old(documents), was, id, inserted, faults)
      ensures tables == [Cleaned(old(documents), id, inserted, faults), documents]
    {
      if inserted && !faults.cleanupFails {
        documents := SoftDelete(documents, id, PipelineFailure);
      }
      tables := [documents];
      if was.Some? && !faults.restoreFails && was.value in documents {
        if !Violates(documents, was.value, documents[was.value]) {
          documents := Undelete(documents, was.value);
        }
      }
      tables := tables + [documents];
    }

    /** Detection, the new row, and everything up to the store: the part whose failure is compensated. */
    method Process(namespace: string, filename: string, content: Content, row: Document, id: DocumentId,
        extra: Metadata, faults: IngestFaults)
      returns (r: Result<nat, IngestError>, inserted: bool)
      requires store.Valid() && WellNamed(store.points) && NoPointsOf(store.points, id)
      modifies this`documents, store`points, store`order
      ensures store.Valid() && inserted == RowCommitted(content, faults)
      ensures documents == if inserted then old(documents)[id := row] else old(documents)
      ensures r.Ok? <==> ProcessProblem(processing, content, faults) == None
      ensures r.Err? ==> ProcessProblem(processing, content, faults) == Some(r.error)
      ensures r.Ok? ==>
        store.points == old(store.points) + Added(processing, namespace, store.active, id, content, extra)
                        && r.value == |ChunksOf(processing.strategy, content.elements, processing.decodes).value|
      ensures OnlyGained(old(store.points), store.points, namespace, store.active, id)
      ensures !inserted || (r.Err? && !LeavesResidue(store.backend, faults.store)) ==> store.points == old(store.points)
    {
      if faults.detectFails {
        return Err(StorageFailed), false;
      }
      if !content.supported {
        return Err(UnsupportedType), false;
      }
      if faults.insertFails || faults.commitFails {
        return Err(StorageFailed), false;
      }
      documents := documents[id := row];
      inserted := true;
      r := StoreContent(store, processing, namespace, id, content, extra, faults);
    }

    /** After a successful store: drop the old version's chunks and record the count, both best effort. */
    method Finish(namespace: string, was: Option<DocumentId>, id: DocumentId, count: nat, faults: IngestFaults)
      requires store.Valid() && id in documents
      modifies this`documents, store`points, store`order
      ensures store.Valid()
      ensures documents == if faults.countFails then old(documents)
         else old(documents)[id := old(documents)[id].(chunkCount := Some(count))]
      ensures store.points == Superseding(old(store.points), namespace, was, faults)
    {
      if was.Some? {
        ghost var before := store.points;
        var removed := store.Delete(namespace, [was.value], faults.oldDeleteFails);
        assert PointsOf(before, namespace, was.value)
            == set x | x in before && before[x].namespace == namespace && before[x].document in [was.value];
      }
      if !faults.countFails {
        documents := documents[id := documents[id].(chunkCount := Some(count))];
      }
    }

    /** Known content: an exact duplicate, or one more name for it. */
    method Deduplicate(namespace: string, filename: string, twin: DocumentId, faults: IngestFaults)
      returns (r: Result<IngestResult, IngestError>)
      requires Valid() && IsLive(documents, twin)
      modifies this`documents
      ensures Valid()
      ensures r.Ok? <==> IsNameOf(old(documents), twin, filename) || !faults.aliasFails
      ensures r.Err? ==> r.error == DatabaseFailed
      ensures documents == Aliased(old(documents), twin, filename, faults)
      ensures r.Ok? ==> DedupDone(old(documents), documents, filename, twin, faults, r.value)
      ensures AnsweredBy(old(documents), documents, twin, filename, faults.aliasFails, r)
    {
      var row := documents[twin];
      if row.filename == filename {
        return Ok(Exists(twin, row.version, row.supersedes));
      }
      var aliases := row.aliases;
      if filename !in aliases {
        if faults.aliasFails {
          return Err(DatabaseFailed);
        }
        AliasKeeps(documents, twin, filename);
        aliases := aliases + [filename];
        TableChangeKeeps(store.points, documents, documents[twin := row.(aliases := aliases)], store.active);
        documents := documents[twin := row.(aliases := aliases)];
      }
      return Ok(Alias(twin, |aliases|, row.version, row.supersedes));
    }

    /** The exception path of an upload: compensate whatever got committed. */
    method Undo(ghost t: Table, ghost points: Points, namespace: string, filename: string, content: Content,
        was: Option<DocumentId>, id: DocumentId, inserted: bool,
        faults: IngestFaults) returns (ghost tables: seq<Table>)
      requires store.Valid() && TableValid(documents) && CollectionValid(points, t, store.active)
      requires NewContent(t, namespace, filename, content, was, id)
      requires documents == Started(t, was, id, NewRow(t, namespace, filename, content, was), inserted)
      requires OnlyGained(points, store.points, namespace, store.active, id) && (!inserted ==> store.points == points)
      modifies this`documents
      ensures TableValid(documents) && forall u | u in tables :: TableValid(u)
      ensures documents == Compensated(old(documents), was, id, inserted, faults)
      ensures tables == [Cleaned(old(documents), id, inserted, faults), documents]
      ensures forall d | d in documents :: d in t || d == id
      ensures SameLive(t, documents) <==> (inserted ==> !faults.cleanupFails) && (was.Some? ==> !faults.restoreFails)
      ensures Valid() <==> NewRowValid(namespace, id)
      ensures !faults.cleanupFails || store.points == points ==> Valid()
    {
      hide UniqueLive, RowValid, SameLive, Violates, DocumentValid, WellNamed, Owned, NewRow, Restored;
      CleanedValid(documents, id, inserted, faults);
      CompensationRestores(t, namespace, filename, content, was, id, inserted, faults);
      tables := Compensate(was, id, inserted, faults);
      FailureKeepsCollection(points, t, store.points, documents, store.active, namespace, id);
    }

    /** The path after a successful store. */
    method Settle(ghost t: Table, ghost points: Points, namespace: string, filename: string, content: Content,
        was: Option<DocumentId>, id: DocumentId, extra: Metadata, count: nat, faults: IngestFaults)
      requires store.Valid() && CollectionValid(points, t, store.active) && StoreSucceeds(processing, content, faults)
      requires NewContent(t, namespace, filename, content, was, id)
      requires documents == Started(t, was, id, NewRow(t, namespace, filename, content, was), true)
      requires store.points == points + Added(processing, namespace, store.active, id, content, extra)
      modifies this`documents, store`points, store`order
      ensures Valid() && NewRowValid(namespace, id)
      ensures documents
           == Replaced(t, was, id, NewRow(t, namespace, filename, content, was),
                       if faults.countFails then None else Some(count))
      ensures store.points == Superseding(old(store.points), namespace, was, faults)
    {
      hide UniqueLive, RowValid, WellNamed, Owned, DocumentValid, StoreSucceeds, Added, Violates;
      Finish(namespace, was, id, count, faults);
      ghost var recorded := if faults.countFails then None else Some(count);
      assert documents == Replaced(t, was, id, NewRow(t, namespace, filename, content, was), recorded);
      ReplacedValid(t, namespace, filename, content, was, id, recorded);
      SuccessKeepsCollection(points, t, processing, namespace, filename, content, was, id, extra, store.active,
                             recorded, faults);
    }

    /** Process the new version, then finish, or compensate whatever got committed. */
    method ProcessOrUndo(ghost t: Table, namespace: string, filename: string, content: Content, row: Document,
        was: Option<DocumentId>, id: DocumentId, extra: Metadata, faults: IngestFaults)
      returns (r: Result<IngestResult, IngestError>, ghost tables: seq<Table>)
      requires store.Valid() && CollectionValid(store.points, t, store.active)
      requires NewContent(t, namespace, filename, content, was, id)
      requires documents == Hidden(t, was) && row == NewRow(t, namespace, filename, content, was)
      requires was.Some? ==> !faults.supersedeFails
      modifies this`documents, store`points, store`order
      ensures store.Valid() && TableValid(documents) && forall u | u in tables :: TableValid(u)
      ensures tables == ProcessTables(t, processing, namespace, filename, content, was, id, faults)
      ensures tables != [] && documents == LastTable(t, tables)
      ensures r.Ok? <==> ProcessProblem(processing, content, faults) == None
      ensures r.Err? ==> ProcessProblem(processing, content, faults) == Some(r.error)
      ensures r.Ok? ==>
        UploadDone(t, documents, old(store.points), store.points, processing, store.active, namespace, filename,
                   content, was, id, extra, faults, r.value)
      ensures r.Err? ==>
        UploadUndone(t, documents, old(store.points), store.points, store.backend, namespace, store.active,
                     content, was, id, faults)
      ensures Valid() <==> NewRowValid(namespace, id)
      ensures r.Ok? || !faults.cleanupFails || !LeavesResidue(store.backend, faults.store) ==> Valid()
    {
      hide UniqueLive, RowValid, DocumentValid, ContentProblem, Added, Violates, SameLive, OnlyGained, Replaced,
        Superseding, NewRow, IngestedPoint, Cleaned, Compensated, LeavesResidue, VersionValid, NewRowValid, WellNamed,
        Owned, NoPointsOf;
      ghost var points := store.points;
      FreshDocument(points, t, id);
      var stored, inserted := Process(namespace, filename, content, row, id, extra, faults);
      StartedValid(t, namespace, filename, content, was, id, inserted);
      tables := [documents];
      if stored.Err? {
        ghost var more := Undo(t, points, namespace, filename, content, was, id, inserted, faults);
        return Err(stored.error), tables + more;
      }
      StoredIsChunked(processing, content, faults);
      Settle(t, points, namespace, filename, content, was, id, extra, stored.value, faults);
      return Ok(New(id, stored.value, row.version, was)), tables + [documents];
    }

    /** An upload whose content is new: hide the row it replaces, if any, and process it. */
    method Upload(namespace: string, filename: string, content: Content, was: Option<DocumentId>, id: DocumentId,
        extra: Metadata, faults: IngestFaults)
      returns (r: Result<IngestResult, IngestError>, ghost tables: seq<Table>)
      requires Valid() && NewContent(documents, namespace, filename, content, was, id)
      modifies this`documents, store`points, store`order
      ensures store.Valid() && TableValid(documents) && forall t | t in tables :: TableValid(t)
      ensures tables == UploadTables(old(documents), processing, namespace, filename, content, was, id, faults)
      ensures documents == LastTable(old(documents), tables)
      ensures r.Ok? <==> UploadProblem(processing, content, was, faults) == None
      ensures r.Err? ==> UploadProblem(processing, content, was, faults) == Some(r.error)
      ensures r.Ok? ==>
        UploadDone(old(documents), documents, old(store.points), store.points, processing, store.active, namespace,
                   filename, content, was, id, extra, faults, r.value)
      ensures r.Err? ==>
        UploadUndone(old(documents), documents, old(store.points), store.points, store.backend, namespace, store.active,
                     content, was, id, faults)
      ensures Valid() <==> NewRowValid(namespace, id)
      ensures r.Ok? || !faults.cleanupFails || !LeavesResidue(store.backend, faults.store) ==> Valid()
    {
      hide UniqueLive, RowValid, DocumentValid, ProcessProblem, SameLive, OnlyGained, NewRow, LeavesResidue,
        ProcessTables, UploadDone;
      ghost var t, points := documents, store.points;
      var row := NewRow(documents, namespace, filename, content, was);
      if was.Some? {
        if faults.supersedeFails {
          NothingHappened(t, points, namespace, store.active, id);
          return Err(DatabaseFailed), [];
        }
        HiddenValid(t, was);
        documents := SoftDelete(documents, was.value, Superseded);
      }
      ghost var hidden := documents;
      r, tables := ProcessOrUndo(t, namespace, filename, content, row, was, id, extra, faults);
      tables := if was.Some? then [hidden] + tables else tables;
    }

    /**
     * The ingest entry point. `id` is the row id the database would assign. Whatever fails: every table
     * ever committed satisfies the indexes and version links; if compensation works the live rows are the
     * old ones, and with no stray points a search sees what it saw; known content changes nothing. New
     * content becomes the next version of its name: the row, the answer and the chunks say so.
     */
    method RunIngest(namespace: string, filename: string, content: Content, id: DocumentId, extra: Metadata,
        faults: IngestFaults)
      returns (r: Result<IngestResult, IngestError>, ghost tables: seq<Table>)
      requires Valid() && id !in documents
      modifies this`documents, store`points, store`order
      ensures store.Valid() && TableValid(documents) && forall t | t in tables :: TableValid(t)
      ensures tables == IngestTables(old(documents), processing, namespace, filename, content, id, faults)
      ensures documents == LastTable(old(documents), tables)
      ensures Valid() <==> NewRowValid(namespace, id)
      ensures r.Ok? || !faults.cleanupFails || !LeavesResidue(store.backend, faults.store) ==> Valid()
      ensures var problem := IngestProblem(old(documents), processing, namespace, filename, content, faults);
        if r.Ok? then problem == None else problem == Some(r.error)
      ensures forall d | d in documents :: d in old(documents) || d == id
      ensures r.Ok? ==>
        IngestDone(old(documents), documents, old(store.points), store.points, processing, store.active, namespace,
                   filename, content, id, extra, faults, r.value)
      ensures forall q | HasContent(old(documents), q, namespace, content.hash) ::
        && AnsweredBy(old(documents), documents, q, filename, faults.aliasFails, r)
        && store.points == old(store.points)
      ensures IsNewContent(old(documents), namespace, content.hash) ==>
        (r.Ok? <==> NothingFails(processing, content,
                                 exists q: DocumentId :: Holds(old(documents), q, namespace, filename), faults))
      ensures IsNewContent(old(documents), namespace, content.hash) ==>
        forall u | u in tables && id in u :: IsNewVersion(old(documents), u, namespace, filename, content.hash, id)
      ensures r.Ok? && IsNewContent(old(documents), namespace, content.hash) ==>
        NewVersionMade(old(documents), documents, old(store.points), store.points, processing, store.active, namespace,
                       filename, content, id, extra, faults, r.value)
      ensures r.Ok? ==> Known(documents, namespace, filename, content.hash)
      ensures Known(old(documents), namespace, filename, content.hash) ==>
        documents == old(documents) && store.points == old(store.points)
      ensures r.Err? ==>
        && (SameLive(old(documents), documents)
            <==> LiveRowsReturn(old(documents), namespace, filename, content, faults))
        && OnlyGained(old(store.points), store.points, namespace, store.active, id)
        && (!LeavesResidue(store.backend, faults.store) ==> store.points == old(store.points))
      ensures (&& r.Err? && !LeavesResidue(store.backend, faults.store)
               && (store.backend.Pgvector? ==> SameLive(old(documents), documents))) ==>
        forall ns :: SearchView(store.backend, store.points, store.active, ns, Live(documents))
                  == SearchView(store.backend, old(store.points), store.active, ns, Live(old(documents)))
    {
      hide UniqueLive, RowValid, WellNamed, Owned, DocumentValid, UploadProblem, SearchView, SameLive, Known,
        IngestProblem, LiveRowsReturn, NothingFails, AnsweredBy, IsNewVersion, NewVersionMade, Holds, UploadTables,
        OnlyGained;
      ghost var t, points := documents, store.points;
      TwinIs(t, namespace, content.hash);
      NothingHappened(t, points, namespace, store.active, id);
      DecideIngest(t, processing, namespace, filename, content, faults);
      var twin := LiveBy(documents, namespace, Hash, content.hash);
      if twin.Some? {
        r := Deduplicate(namespace, filename, twin.value, faults);
        if r.Ok? {
          NowKnown(documents, twin.value, namespace, filename, content.hash);
        }
        tables := [documents];
      } else {
        var was := LiveBy(documents, namespace, Filename, filename);
        r, tables := Upload(namespace, filename, content, was, id, extra, faults);
        SucceedsIff(t, processing, namespace, filename, content, was, id, faults);
        TablesHaveVersion(t, processing, namespace, filename, content, was, id, faults);
        if r.Ok? {
          UploadMakesVersion(t, documents, points, store.points, processing, store.active, namespace, filename, content,
                             was, id, extra, faults, r.value);
          NowKnown(documents, id, namespace, filename, content.hash);
        }
      }
      forall ns | r.Err? && store.points == points && (store.backend.Pgvector? ==> SameLive(t, documents))
        ensures SearchView(store.backend, store.points, store.active, ns, Live(documents))
             == SearchView(store.backend, points, store.active, ns, Live(t))
      {
        SameView(store.backend, points, t, documents, store.active, ns);
      }
    }

    /** Repeating a successful ingest, whatever fails the second time, succeeds and changes nothing. */
    method IngestTwice(namespace: string, filename: string, content: Content, id: DocumentId, again: DocumentId,
        extra: Metadata, faults: IngestFaults, later: IngestFaults)
      returns (first: Result<IngestResult, IngestError>, second: Result<IngestResult, IngestError>, ghost t: Table,
               ghost points: Points)
      requires Valid() && id !in documents && again !in documents && id != again
      requires IngestProblem(documents, processing, namespace, filename, content, faults) == None
      modifies this`documents, store`points, store`order
      ensures Valid() && first.Ok? && second.Ok? && documents == t && store.points == points
    {
      hide UniqueLive, RowValid, WellNamed, Owned, DocumentValid, UploadProblem, SearchView, SameLive, OnlyGained,
        IngestProblem, LiveRowsReturn;
      ghost var tables;
      first, tables := RunIngest(namespace, filename, content, id, extra, faults);
      t, points := documents, store.points;
      KnownSucceeds(documents, processing, namespace, filename, content, later);
      ghost var more;
      second, more := RunIngest(namespace, filename, content, again, extra, later);
    }
  }
}
