/**
 * The vector store behind both providers: one collection of points keyed by chunk id, holding
 * every index version side by side. Qdrant upserts, pgvector inserts or fails as one transaction.
 *
 * The registry hands out one provider or the other; `backend` is that choice.
 */
module VectorStores {
  import opened Support
  import opened ChunkIds
  import opened Chunking

  datatype Backend = Qdrant | Pgvector

  datatype Vector = Vector(components: seq<real>)

  datatype SparseVector = SparseVector(indices: seq<int>, values: seq<real>)

  /** What a provider stores under a chunk id. */
  datatype Point = Point(
    namespace: string, version: nat, document: DocumentId, position: nat, text: Text, dense: Vector,
    sparse: Option<SparseVector>, level: Level, metadata: Metadata, parent: Option<ChunkId>)

  /** A chunk ready for storage; document, position and level travel in its metadata. */
  datatype ChunkEmbedding = ChunkEmbedding(
    id: ChunkId, document: DocumentId, position: nat, text: Text, dense: Vector,
    sparse: Option<SparseVector>, level: Level, metadata: Metadata, parent: Option<ChunkId>)

  /** A chunk read back, without its dense vector. */
  datatype StoredChunk = StoredChunk(
    id: ChunkId, position: nat, text: Text, sparse: Option<SparseVector>, level: Level,
    metadata: Metadata, parent: Option<ChunkId>)

  type Points = map<ChunkId, Point>
  type Entry = (ChunkId, Point)

  /** Live documents and their namespaces: the rows a join with source_documents keeps. */
  type LiveDocuments = map<DocumentId, string>

  datatype StoreError = DuplicateKey | MixedDocuments | StoreFailed | ActiveIndexVersion

  /** How one store call goes wrong; `applied` are the points the server kept before failing. */
  datatype StoreFault =
    | NoFault
    | Rejected(applied: set<ChunkId>, cleanupFails: bool)
    | TimedOut(applied: set<ChunkId>)

  /** A store failure that leaves points behind: a timeout, or a rejection whose compensating delete failed. */
  predicate LeavesResidue(backend: Backend, fault: StoreFault) {
    backend.Qdrant? && (fault.TimedOut? || (fault.Rejected? && fault.cleanupFails))
  }

  // ---- What a batch does to the collection ----

  function PointOf(namespace: string, version: nat, c: ChunkEmbedding): Point {
    Point(namespace, version, c.document, c.position, c.text, c.dense, c.sparse, c.level, c.metadata, c.parent)
  }

  function Batch(namespace: string, version: nat, chunks: seq<ChunkEmbedding>): seq<Entry> {
    seq(|chunks|, i requires 0 <= i < |chunks| => (chunks[i].id, PointOf(namespace, version, chunks[i])))
  }

  /** The points a batch leaves behind, later entries winning. */
  function Written(batch: seq<Entry>): Points {
    if batch == [] then map[] else Written(batch[..|batch| - 1])[batch[|batch| - 1].0 := batch[|batch| - 1].1]
  }

  function Keep(points: Points, ids: set<ChunkId>): Points {
    map id | id in points && id in ids :: points[id]
  }

  predicate Collides(points: Points, batch: seq<Entry>) {
    exists i | 0 <= i < |batch| :: batch[i].0 in points || exists j | 0 <= j < i :: batch[j].0 == batch[i].0
  }

  predicate OneDocument(batch: seq<Entry>) {
    forall i | 0 <= i < |batch| :: batch[i].1.document == batch[0].1.document
  }

  /** None when the call succeeds, otherwise why it fails. */
  function StoreProblem(backend: Backend, points: Points, batch: seq<Entry>, fault: StoreFault): Option<StoreError> {
    if batch == [] then None
    else if backend.Pgvector? && !OneDocument(batch) then Some(MixedDocuments)
    else if backend.Pgvector? && Collides(points, batch) then Some(DuplicateKey)
    else if fault != NoFault then Some(StoreFailed)
    else None
  }

  function AfterStore(backend: Backend, points: Points, batch: seq<Entry>, fault: StoreFault): Points {
    var written := Written(batch);
    if StoreProblem(backend, points, batch, fault) == None then points + written
    else if backend.Pgvector? then points
    else match fault
      case NoFault => points
      case TimedOut(applied) => points + Keep(written, applied)
      case Rejected(applied, cleanupFails) =>
        if cleanupFails then points + Keep(written, applied) else points - written.Keys
  }

  lemma {:induction false} WrittenAt(batch: seq<Entry>, id: ChunkId)
    ensures id in Written(batch) <==> exists i :: 0 <= i < |batch| && batch[i].0 == id
    ensures id in Written(batch) ==> (id, Written(batch)[id]) in batch
  {
    if batch != [] {
      var front := batch[..|batch| - 1];
      WrittenAt(front, id);
      if id in Written(front) {
        assert exists i :: 0 <= i < |batch| && batch[i].0 == id by {
          var i :| 0 <= i < |front| && front[i].0 == id;
          assert batch[i].0 == id;
        }
      }
    }
  }

  lemma {:induction false} WrittenStep(batch: seq<Entry>, n: nat, applied: set<ChunkId>)
    requires n < |batch|
    ensures Written(batch[..n + 1]) == Written(batch[..n])[batch[n].0 := batch[n].1]
    ensures Keep(Written(batch[..n + 1]), applied)
         == if batch[n].0 in applied then Keep(Written(batch[..n]), applied)[batch[n].0 := batch[n].1]
            else Keep(Written(batch[..n]), applied)
  {
    assert batch[..n + 1][..n] == batch[..n];
  }

  lemma {:induction false} AllKept(batch: seq<Entry>)
    ensures Keep(Written(batch), Written(batch).Keys) == Written(batch)
  {
  }

  lemma {:induction false} OverlayPut(points: Points, written: Points, id: ChunkId, p: Point)
    ensures (points + written)[id := p] == points + written[id := p]
  {
  }

  lemma {:induction false} NothingWritten(batch: seq<Entry>, applied: set<ChunkId>)
    ensures Written(batch[..0]) == map[] && Keep(Written(batch[..0]), applied) == map[]
  {
  }

  lemma {:induction false} CollidesStep(points: Points, batch: seq<Entry>, n: nat)
    requires n < |batch| && !Collides(points, batch[..n])
    ensures batch[n].0 in points + Written(batch[..n]) ==> Collides(points, batch)
    ensures batch[n].0 !in points + Written(batch[..n]) ==> !Collides(points, batch[..n + 1])
  {
    WrittenAt(batch[..n], batch[n].0);
    var more := batch[..n + 1];
    if batch[n].0 !in points + Written(batch[..n]) {
      forall i | 0 <= i < |more| ensures more[i].0 !in points && forall j | 0 <= j < i :: more[j].0 != more[i].0 {
        if i < n {
          assert more[i] == batch[..n][i];
          assert forall j | 0 <= j < i :: more[j] == batch[..n][j];
        } else {
          assert forall j | 0 <= j < n :: more[j] == batch[..n][j];
        }
      }
    }
  }

  lemma {:induction false} BatchIds(batch: seq<Entry>, ids: seq<ChunkId>)
    requires |ids| == |batch| && forall i | 0 <= i < |ids| :: ids[i] == batch[i].0
    ensures (set id | id in ids) == Written(batch).Keys
  {
    forall id ensures id in ids <==> id in Written(batch) {
      WrittenAt(batch, id);
    }
  }

  /** A failed or repeated store never touches a point outside its own batch. */
  lemma {:induction false} StoreStaysInBatch(backend: Backend, points: Points, batch: seq<Entry>, fault: StoreFault)
    ensures AgreeOutside(points, AfterStore(backend, points, batch, fault), Written(batch).Keys)
  {
  }

  ghost predicate AgreeOutside(a: Points, b: Points, ids: set<ChunkId>) {
    a - ids == b - ids
  }

  // ---- Views ----

  predicate At(p: Point, namespace: string, document: DocumentId, version: nat) {
    p.namespace == namespace && p.document == document && p.version == version
  }

  function Matching(points: Points, namespace: string, document: DocumentId, version: nat): set<ChunkId> {
    set id | id in points && At(points[id], namespace, document, version)
  }

  /** All points of one index version. */
  function VersionPart(points: Points, version: nat): Points {
    map id | id in points && points[id].version == version :: points[id]
  }

  function StoredAs(id: ChunkId, p: Point): StoredChunk {
    StoredChunk(id, p.position, p.text, p.sparse, p.level, p.metadata, p.parent)
  }

  /** r lists exactly the document's chunks at the version, each once, by position. */
  ghost predicate IsListing(r: seq<StoredChunk>, points: Points, namespace: string, document: DocumentId,
      version: nat) {
    && NoDuplicates(r) && (forall i, j | 0 <= i < j < |r| :: r[i].position <= r[j].position)
    && (forall c | c in r ::
        c.id in Matching(points, namespace, document, version) && c == StoredAs(c.id, points[c.id]))
    && (forall id | id in Matching(points, namespace, document, version) :: StoredAs(id, points[id]) in r)
  }

  predicate DistinctPositions(points: Points, namespace: string, document: DocumentId, version: nat) {
    forall a, b | a in Matching(points, namespace, document, version)
       && b in Matching(points, namespace, document, version) ::
      points[a].position == points[b].position ==> a == b
  }

  /** The rows whose active-version chunks a count covers: pgvector joins live documents, Qdrant does not. */
  predicate Counted(backend: Backend, p: Point, active: nat, namespace: Option<string>, live: LiveDocuments) {
    && p.version == active
    && (namespace.Some? && namespace.value != "" ==> p.namespace == namespace.value)
    && (backend.Pgvector? ==> p.document in live && live[p.document] == p.namespace)
  }

  /** A point that a fetch by id returns. */
  predicate Fetchable(backend: Backend, p: Point, active: nat, namespace: string, live: LiveDocuments) {
    p.namespace == namespace && p.version == active && (backend.Pgvector? ==> p.document in live)
  }

  /** A point that a search can return: as a fetch, but never a parent chunk. */
  predicate Searchable(backend: Backend, p: Point, active: nat, namespace: string, live: LiveDocuments) {
    Fetchable(backend, p, active, namespace, live) && !p.level.Parent?
  }

  function SearchView(backend: Backend, points: Points, active: nat, namespace: string, live: LiveDocuments): Points {
    map id | id in points && Searchable(backend, points[id], active, namespace, live) :: points[id]
  }

  /** Every id is the ingest or the reindex id of the point it names. */
  ghost predicate WellNamed(points: Points) {
    forall id | id in points :: WellNamedPoint(id, points[id])
  }

  predicate WellNamedPoint(id: ChunkId, p: Point) {
    || id == IngestChunkId(p.document, p.position)
    || id == TargetChunkId(p.document, p.position, p.version)
  }

  /** The invariant that keeps two versions apart in one map: a reindex id for version v is only ever stored at v. */
  lemma {:induction false} TargetIdAtItsVersion(points: Points, document: DocumentId, position: nat, version: nat)
    requires WellNamed(points)
    ensures var id := TargetChunkId(document, position, version);
      id in points ==>
        points[id].version == version && points[id].document == document && points[id].position == position
  {
    var id := TargetChunkId(document, position, version);
    if id in points {
      var p := points[id];
    }
  }

  // ---- Filtering the collection in storage order ----

  function Select(order: seq<ChunkId>, keep: ChunkId -> bool): seq<ChunkId> {
    if order == [] then []
    else Select(order[..|order| - 1], keep) + (if keep(order[|order| - 1]) then [order[|order| - 1]] else [])
  }

  lemma {:induction false} SelectJoin(a: seq<ChunkId>, b: seq<ChunkId>, keep: ChunkId -> bool)
    ensures Select(a + b, keep) == Select(a, keep) + Select(b, keep)
  {
    if b == [] {
      assert a + b == a;
    } else {
      SelectJoin(a, b[..|b| - 1], keep);
      assert (a + b)[..|a + b| - 1] == a + b[..|b| - 1];
    }
  }

  lemma {:induction false} SelectMembers(order: seq<ChunkId>, keep: ChunkId -> bool)
    ensures forall id :: id in Select(order, keep) <==> id in order && keep(id)
    ensures NoDuplicates(order) ==> NoDuplicates(Select(order, keep))
  {
    if order != [] {
      SelectMembers(order[..|order| - 1], keep);
      assert order == order[..|order| - 1] + [order[|order| - 1]];
    }
  }

  const SCROLL_PAGE_SIZE := 256

  class VectorStore {
    const backend: Backend
    var active: nat
    var points: Points
    var order: seq<ChunkId>

    /** `order` lists the stored ids once each, in the order the server walks them. */
    ghost predicate Valid()
      reads this
    {
      NoDuplicates(order) && forall id :: id in order <==> id in points
    }

    constructor (backend: Backend, active: nat)
      ensures Valid() && this.backend == backend && this.active == active && points == map[]
    {
      this.backend := backend;
      this.active := active;
      points := map[];
      order := [];
    }

    method Put(id: ChunkId, p: Point)
      requires Valid()
      modifies this`points, this`order
      ensures Valid() && points == old(points)[id := p]
    {
      if id !in points {
        order := order + [id];
      }
      points := points[id := p];
    }

    /** The server's upsert of those entries of a batch whose ids are in `applied`. */
    method Upsert(batch: seq<Entry>, applied: set<ChunkId>)
      requires Valid()
      modifies this`points, this`order
      ensures Valid()
      ensures points == old(points) + Keep(Written(batch), applied)
    {
      hide Written, Keep;
      NothingWritten(batch, applied);
      for n := 0 to |batch|
        invariant Valid()
        invariant points == old(points) + Keep(Written(batch[..n]), applied)
      {
        WrittenStep(batch, n, applied);
        OverlayPut(old(points), Keep(Written(batch[..n]), applied), batch[n].0, batch[n].1);
        if batch[n].0 in applied {
          Put(batch[n].0, batch[n].1);
        }
      }
      assert batch[..|batch|] == batch;
    }

    /** The server's delete of every point that satisfies a filter. */
    method Remove(drop: ChunkId -> bool)
      requires Valid()
      modifies this`points, this`order
      ensures Valid()
      ensures points == map id | id in old(points) && !drop(id) :: old(points)[id]
    {
      SelectMembers(order, id => !drop(id));
      order := Select(order, id => !drop(id));
      points := map id | id in points && !drop(id) :: points[id];
    }

    /** The inserting transaction of pgvector: rows are added one by one, the first duplicate rolls all back. */
    method InsertAll(batch: seq<Entry>, commitFails: bool) returns (problem: Option<StoreError>)
      requires Valid()
      modifies this`points, this`order
      ensures Valid()
      ensures problem == if Collides(old(points), batch) then Some(DuplicateKey)
                         else if commitFails then Some(StoreFailed) else None
      ensures points == if problem == None then old(points) + Written(batch) else old(points)
    {
      var staged: set<ChunkId> := {};
      for n := 0 to |batch|
        invariant points == old(points) && order == old(order)
        invariant staged == Written(batch[..n]).Keys
        invariant !Collides(points, batch[..n])
      {
        WrittenStep(batch, n, {});
        CollidesStep(points, batch, n);
        if batch[n].0 in points || batch[n].0 in staged {
          return Some(DuplicateKey);
        }
        staged := staged + {batch[n].0};
      }
      assert batch[..|batch|] == batch;
      if commitFails {
        return Some(StoreFailed);
      }
      Upsert(batch, staged);
      assert Keep(Written(batch), staged) == Written(batch);
      return None;
    }

    /** The pgvector adapter: one document per call, one transaction. */
    method StoreRows(batch: seq<Entry>, fault: StoreFault) returns (problem: Option<StoreError>)
      requires Valid() && backend.Pgvector? && batch != []
      modifies this`points, this`order
      ensures Valid()
      ensures problem == StoreProblem(backend, old(points), batch, fault)
      ensures points == AfterStore(backend, old(points), batch, fault)
      ensures (exists i, j :: 0 <= i < j < |batch| && batch[i].1.document != batch[j].1.document) ==>
        problem == Some(MixedDocuments) && points == old(points)
    {
      if !OneDocument(batch) {
        return Some(MixedDocuments);
      }
      problem := InsertAll(batch, fault != NoFault);
    }

    /** The Qdrant provider: an upsert, compensated by a delete of the batch unless it timed out. */
    method StoreVectors(batch: seq<Entry>, ids: seq<ChunkId>, fault: StoreFault) returns (problem: Option<StoreError>)
      requires Valid() && backend.Qdrant? && batch != []
      requires |ids| == |batch| && forall i | 0 <= i < |ids| :: ids[i] == batch[i].0
      modifies this`points, this`order
      ensures Valid()
      ensures problem == StoreProblem(backend, old(points), batch, fault)
      ensures points == AfterStore(backend, old(points), batch, fault)
    {
      hide Written, OneDocument, Collides, NoDuplicates;
      var all := set id | id in ids;
      BatchIds(batch, ids);
      AllKept(batch);
      match fault {
        case NoFault =>
          Upsert(batch, all);
          return None;
        case TimedOut(applied) =>
          Upsert(batch, applied);
          return Some(StoreFailed);
        case Rejected(applied, cleanupFails) =>
          Upsert(batch, applied);
          if !cleanupFails {
            Remove(id => id in all);
          }
          return Some(StoreFailed);
      }
    }

    /** Writes chunks under an index version, the active one by default. */
    method Store(namespace: string, chunks: seq<ChunkEmbedding>, indexVersion: Option<nat>, fault: StoreFault)
      returns (r: Result<seq<ChunkId>, StoreError>)
      requires Valid()
      modifies this`points, this`order
      ensures Valid()
      ensures var version := if indexVersion.Some? then indexVersion.value else active;
        var batch := Batch(namespace, version, chunks);
        && points == AfterStore(backend, old(points), batch, fault)
        && match StoreProblem(backend, old(points), batch, fault)
           case None => r.Ok? && |r.value| == |chunks| && forall i | 0 <= i < |chunks| :: r.value[i] == chunks[i].id
           case Some(e) => r == Err(e)
    {
      var version := if indexVersion.Some? then indexVersion.value else active;
      if chunks == [] {
        return Ok([]);
      }
      var batch: seq<Entry> := [];
      var ids: seq<ChunkId> := [];
      for n := 0 to |chunks|
        invariant |batch| == |ids| == n
        invariant forall i | 0 <= i < n ::
          ids[i] == chunks[i].id && batch[i] == (ids[i], PointOf(namespace, version, chunks[i]))
      {
        batch := batch + [(chunks[n].id, PointOf(namespace, version, chunks[n]))];
        ids := ids + [chunks[n].id];
      }
      assert batch == Batch(namespace, version, chunks);
      var problem;
      match backend {
        case Pgvector => problem := StoreRows(batch, fault);
        case Qdrant => problem := StoreVectors(batch, ids, fault);
      }
      if problem.Some? {
        return Err(problem.value);
      }
      return Ok(ids);
    }

    /** One page of the server's scroll: matching ids from `offset`, and where the next page starts. */
    method Scroll(keep: ChunkId -> bool, offset: nat) returns (page: seq<ChunkId>, next: Option<nat>)
      requires offset <= |order|
      ensures |page| <= 256 && (next.Some? ==> offset < next.value <= |order|)
      ensures page == Select(order[offset..if next.Some? then next.value else |order|], keep)
    {
      page := [];
      var at := offset;
      while at < |order| && |page| < SCROLL_PAGE_SIZE
        invariant offset <= at <= |order| && |page| <= at - offset && |page| <= SCROLL_PAGE_SIZE
        invariant page == Select(order[offset..at], keep)
      {
        assert order[offset..at + 1][..at - offset] == order[offset..at];
        if keep(order[at]) {
          page := page + [order[at]];
        }
        at := at + 1;
      }
      next := if at < |order| then Some(at) else None;
    }

    /** The stored form of some ids, as read from the collection. */
    method Read(ids: seq<ChunkId>) returns (chunks: seq<StoredChunk>)
      requires forall id | id in ids :: id in points
      ensures |chunks| == |ids|
      ensures forall i | 0 <= i < |ids| :: ids[i] in points && chunks[i] == StoredAs(ids[i], points[ids[i]])
    {
      chunks := [];
      for n := 0 to |ids|
        invariant |chunks| == n
        invariant forall i | 0 <= i < n :: ids[i] in points && chunks[i] == StoredAs(ids[i], points[ids[i]])
      {
        assert ids[n] in ids;
        chunks := chunks + [StoredAs(ids[n], points[ids[n]])];
      }
    }

    /** Every matching id, gathered page by page. */
    method ScrollAll(keep: ChunkId -> bool) returns (ids: seq<ChunkId>)
      ensures ids == Select(order, keep)
    {
      ids := [];
      var offset := Some(0);
      ghost var done := 0;
      while offset.Some?
        invariant done <= |order| && ids == Select(order[..done], keep)
        invariant if offset.Some? then offset.value == done else done == |order|
        decreases if offset.Some? then |order| - done + 1 else 0
      {
        var page, next := Scroll(keep, offset.value);
        ghost var end := if next.Some? then next.value else |order|;
        SelectJoin(order[..done], order[done..end], keep);
        assert order[..done] + order[done..end] == order[..end];
        ids := ids + page;
        done := end;
        offset := next;
      }
      assert order[..done] == order;
    }

    /**
     * All chunks of a document at the active version, by position: Qdrant scrolls and sorts, pgvector
     * queries in order.
     */
    method ListChunks(namespace: string, document: DocumentId) returns (r: seq<StoredChunk>)
      requires Valid()
      ensures IsListing(r, points, namespace, document, active)
    {
      var here, current := points, active;
      var keep := (id: ChunkId) => id in here && At(here[id], namespace, document, current);
      SelectMembers(order, keep);
      var ids;
      match backend {
        case Qdrant => ids := ScrollAll(keep);
        case Pgvector => ids := Select(order, keep);
      }
      var chunks := Read(ids);
      var key := (c: StoredChunk) => c.position as real;
      ListingFromSort(chunks, ids, key, here, namespace, document, current);
      return SortBy(chunks, key);
    }

    /** Fetches chunks by id, keeping only this namespace's at the active version. */
    method Retrieve(namespace: string, ids: seq<ChunkId>, live: LiveDocuments) returns (found: seq<Entry>)
      ensures forall e :: e in found <==> e.0 in ids && e.0 in points && e.1 == points[e.0]
                                          && Fetchable(backend, e.1, active, namespace, live)
      ensures forall e | e in found :: && e.1.namespace == namespace && e.1.version == active
                                       && (backend.Pgvector? ==> e.1.document in live)
      ensures forall id | && id in ids && id in points && points[id].namespace == namespace
                          && points[id].version == active && (backend.Qdrant? || points[id].document in live) ::
        (id, points[id]) in found
      ensures NoDuplicates(ids) ==> NoDuplicates(found)
    {
      found := [];
      for n := 0 to |ids|
        invariant NoDuplicates(ids) ==> NoDuplicates(found)
        invariant forall e :: e in found <==> e.0 in ids[..n] && e.0 in points && e.1 == points[e.0]
                                              && Fetchable(backend, e.1, active, namespace, live)
      {
        assert ids[..n + 1] == ids[..n] + [ids[n]];
        if ids[n] in points && Fetchable(backend, points[ids[n]], active, namespace, live) {
          found := found + [(ids[n], points[ids[n]])];
        }
      }
      assert ids[..|ids|] == ids;
    }

    /** Counts the active version's chunks. */
    method CountChunks(namespace: Option<string>, live: LiveDocuments) returns (n: nat)
      requires Valid()
      ensures n == |set id | id in points && Counted(backend, points[id], active, namespace, live)|
      ensures n == |set id | && id in points && points[id].version == active
                             && (namespace.None? || namespace.value == "" || points[id].namespace == namespace.value)
                             && (backend.Qdrant? || (points[id].document in live
                                                     && live[points[id].document] == points[id].namespace))|
    {
      var here, current, provider := points, active, backend;
      var keep := (id: ChunkId) => id in here && Counted(provider, here[id], current, namespace, live);
      var ids := Select(order, keep);
      SelectMembers(order, keep);
      DistinctLength(ids);
      assert (set id | id in ids) == set id | id in points && Counted(backend, points[id], active, namespace, live);
      assert (set id | id in ids)
          == set id | && id in points && points[id].version == active
                      && (namespace.None? || namespace.value == "" || points[id].namespace == namespace.value)
                      && (backend.Qdrant? || (points[id].document in live
                                              && live[points[id].document] == points[id].namespace));
      n := |ids|;
    }

    /** Deletes documents' chunks across every version, as one transaction, and says how many. */
    method Delete(namespace: string, documents: seq<DocumentId>, fails: bool) returns (r: Result<nat, StoreError>)
      requires Valid()
      modifies this`points, this`order
      ensures Valid()
      ensures r.Ok? <==> !fails
      ensures r.Ok? ==>
        var gone := set id | id in old(points) && old(points)[id].namespace == namespace
           && old(points)[id].document in documents;
        r.value == |gone| && points == old(points) - gone
      ensures r.Err? ==> points == old(points)
    {
      if fails {
        return Err(StoreFailed);
      }
      var here := points;
      var drop := (id: ChunkId) => id in here && here[id].namespace == namespace && here[id].document in documents;
      var n := RemoveCounting(drop);
      assert (set id | id in here && drop(id))
          == set id | id in here && here[id].namespace == namespace && here[id].document in documents;
      r := Ok(n);
    }

    /** Reclaims a version of a namespace as one transaction, refusing the active one before anything else. */
    method DeleteIndexVersion(namespace: string, version: nat, fails: bool) returns (r: Result<nat, StoreError>)
      requires Valid()
      modifies this`points, this`order
      ensures Valid()
      ensures version == active ==> r == Err(ActiveIndexVersion)
      ensures version != active && fails ==> r == Err(StoreFailed)
      ensures version == active || fails ==> points == old(points)
      ensures version != active && !fails ==>
        var gone := set id | id in old(points) && old(points)[id].namespace == namespace
           && old(points)[id].version == version;
        r == Ok(|gone|) && points == old(points) - gone
    {
      if version == active {
        return Err(ActiveIndexVersion);
      }
      if fails {
        return Err(StoreFailed);
      }
      var here := points;
      var drop := (id: ChunkId) => id in here && here[id].namespace == namespace && here[id].version == version;
      var n := RemoveCounting(drop);
      assert (set id | id in here && drop(id))
          == set id | id in here && here[id].namespace == namespace && here[id].version == version;
      r := Ok(n);
    }

    /** Counts before deleting, so the number is the truth. */
    method RemoveCounting(drop: ChunkId -> bool) returns (n: nat)
      requires Valid()
      requires forall id :: drop(id) ==> id in points
      modifies this`points, this`order
      ensures Valid()
      ensures var gone := set id | id in old(points) && drop(id); n == |gone| && points == old(points) - gone
    {
      var ids := Select(order, drop);
      SelectMembers(order, drop);
      DistinctLength(ids);
      assert (set id | id in ids) == set id | id in points && drop(id);
      n := |ids|;
      Remove(drop);
    }

    /** The operator's switch: the version is read from configuration at the next start. */
    method SwitchActive(version: nat)
      modifies this`active
      ensures active == version
    {
      active := version;
    }
  }

  /** The stored form of the matching ids, in any order, is what they hold, each once. */
  lemma {:induction false} ReadIsMatching(chunks: seq<StoredChunk>, ids: seq<ChunkId>, points: Points,
        namespace: string, document: DocumentId, version: nat)
    requires NoDuplicates(ids) && |chunks| == |ids|
    requires forall id :: id in ids <==> id in Matching(points, namespace, document, version)
    requires forall i | 0 <= i < |ids| :: ids[i] in points && chunks[i] == StoredAs(ids[i], points[ids[i]])
    ensures NoDuplicates(chunks)
    ensures forall c | c in chunks ::
      c.id in Matching(points, namespace, document, version) && c == StoredAs(c.id, points[c.id])
    ensures forall id | id in Matching(points, namespace, document, version) :: StoredAs(id, points[id]) in chunks
  {
    hide Matching;
    forall c | c in chunks
      ensures c.id in Matching(points, namespace, document, version) && c == StoredAs(c.id, points[c.id])
    {
      var k :| 0 <= k < |chunks| && chunks[k] == c;
      assert ids[k] in ids;
    }
    forall id | id in Matching(points, namespace, document, version) ensures StoredAs(id, points[id]) in chunks {
      assert id in ids;
      var k :| 0 <= k < |ids| && ids[k] == id;
      assert chunks[k] in chunks;
    }
  }

  /** Sorting by position the stored form of the matching ids lists them. */
  lemma {:induction false} ListingFromSort(chunks: seq<StoredChunk>, ids: seq<ChunkId>, key: StoredChunk -> real,
      points: Points, namespace: string, document: DocumentId, version: nat)
    requires NoDuplicates(ids) && |chunks| == |ids|
    requires forall id :: id in ids <==> id in Matching(points, namespace, document, version)
    requires forall i | 0 <= i < |ids| :: ids[i] in points && chunks[i] == StoredAs(ids[i], points[ids[i]])
    requires forall c :: key(c) == c.position as real
    ensures IsListing(SortBy(chunks, key), points, namespace, document, version)
  {
    hide NoDuplicates, Matching, SortBy;
    var r := SortBy(chunks, key);
    ReadIsMatching(chunks, ids, points, namespace, document, version);
    SortByFacts(chunks, key, 0.0);
    SortByMembers(chunks, key);
    SortByDistinct(chunks, key);
    forall i, j | 0 <= i < j < |r| ensures r[i].position <= r[j].position {
      assert key(r[i]) <= key(r[j]);
    }
  }
}
