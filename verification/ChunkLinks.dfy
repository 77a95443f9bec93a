/**
 * Parent links across the life of a chunk: a child's stored parent id leads, at the same version
 * and in the same document, to a parent whose text contains the child's.
 */
module ChunkLinks {
  import opened Support
  import opened ChunkIds
  import opened Chunking
  import opened VectorStores
  import opened ChunkCopies
  import opened DocumentTable

  predicate LinkedPoint(points: Points, siblings: set<ChunkId>, p: Point) {
    && (p.level.Child? <==> p.parent.Some?)
    && (p.level.Child? ==> && p.parent.value in siblings && p.parent.value in points
                           && points[p.parent.value].level.Parent? && IsSlice(p.text, points[p.parent.value].text))
  }

  predicate Linked(points: Points, namespace: string, document: DocumentId, version: nat) {
    forall id | id in Matching(points, namespace, document, version) ::
      LinkedPoint(points, Matching(points, namespace, document, version), points[id])
  }

  /** What every operation on the collection keeps for every ingested document at the active version, deleted or not. */
  predicate DocumentValid(points: Points, namespace: string, document: DocumentId, version: nat) {
    DistinctPositions(points, namespace, document, version) && Linked(points, namespace, document, version)
  }

  ghost predicate Owned(points: Points, t: Table) {
    forall id | id in points :: points[id].document in t && points[id].namespace == t[points[id].document].namespace
  }

  /** Is every ingested document valid at a version, as far as it has chunks there? */
  predicate VersionValid(points: Points, t: Table, version: nat) {
    forall d | d in t && Ingested(t, d) :: DocumentValid(points, t[d].namespace, d, version)
  }

  /** The invariant of the store beside the documents table: well named, owned by rows, valid at the served version. */
  ghost predicate CollectionValid(points: Points, t: Table, active: nat) {
    WellNamed(points) && Owned(points, t) && VersionValid(points, t, active)
  }

  /**
   * End to end: for every child a search can return, a fetch of its parent id returns a parent of the
   * same document whose text contains the child's, unless the child is what a failed ingest left behind.
   * That includes children of superseded and deleted documents, which Qdrant still returns.
   */
  lemma {:induction false} SearchableChildHasParent(backend: Backend, points: Points, t: Table, active: nat,
      namespace: string, id: ChunkId)
    requires CollectionValid(points, t, active)
    requires id in SearchView(backend, points, active, namespace, Live(t)) && Ingested(t, points[id].document)
    requires points[id].level.Child? || points[id].parent.Some?
    ensures points[id].level.Child? && points[id].parent.Some? && points[id].parent.value in points
    ensures var parent := points[points[id].parent.value];
      && Fetchable(backend, parent, active, namespace, Live(t))
      && parent.level.Parent? && parent.document == points[id].document && IsSlice(points[id].text, parent.text)
  {
    var d := points[id].document;
    assert DocumentValid(points, t[d].namespace, d, active);
    assert id in Matching(points, t[d].namespace, d, active);
    assert LinkedPoint(points, Matching(points, t[d].namespace, d, active), points[id]);
  }

  /** Whatever a search returns is a chunk that stands alone or a child with its parent, never a parent. */
  lemma {:induction false} SearchHitStandsOrHasParent(backend: Backend, points: Points, t: Table, active: nat,
      namespace: string, id: ChunkId)
    requires CollectionValid(points, t, active)
    requires id in SearchView(backend, points, active, namespace, Live(t)) && Ingested(t, points[id].document)
    ensures points[id].namespace == namespace && points[id].version == active
    ensures backend.Pgvector? ==> t[points[id].document].deleted == None
    ensures match points[id].level
            case NoLevel => points[id].parent == None
            case Child => && points[id].parent.Some? && points[id].parent.value in points
                          && points[points[id].parent.value].level == Parent
                          && Fetchable(backend, points[points[id].parent.value], active, namespace, Live(t))
            case Parent => false
  {
    if points[id].level.Child? || points[id].parent.Some? {
      SearchableChildHasParent(backend, points, t, active, namespace, id);
    }
  }

  /** A fetch of that parent id on the store returns exactly that parent. */
  method FetchParent(store: VectorStore, t: Table, namespace: string, id: ChunkId) returns (parent: Entry)
    requires store.Valid() && CollectionValid(store.points, t, store.active)
    requires id in SearchView(store.backend, store.points, store.active, namespace, Live(t))
    requires Ingested(t, store.points[id].document) && (store.points[id].level.Child? || store.points[id].parent.Some?)
    ensures store.points[id].parent == Some(parent.0) && parent.1.level.Parent?
    ensures parent.1.document == store.points[id].document && IsSlice(store.points[id].text, parent.1.text)
  {
    SearchableChildHasParent(store.backend, store.points, t, store.active, namespace, id);
    var q := store.points[id].parent.value;
    var found := store.Retrieve(namespace, [q], Live(t));
    assert (q, store.points[q]) in found;
    parent := found[0];
    assert parent in found;
  }

  /** Validity of a document depends on its own points at the version alone. */
  lemma {:induction false} DocumentValidSame(a: Points, b: Points, namespace: string, document: DocumentId,
      version: nat)
    requires DocumentValid(a, namespace, document, version)
    requires Matching(a, namespace, document, version) == Matching(b, namespace, document, version)
    requires forall id | id in Matching(a, namespace, document, version) :: a[id] == b[id]
    ensures DocumentValid(b, namespace, document, version)
  {
    forall id | id in Matching(b, namespace, document, version)
      ensures LinkedPoint(b, Matching(b, namespace, document, version), b[id])
    {
      assert LinkedPoint(a, Matching(a, namespace, document, version), a[id]);
    }
  }

  ghost predicate NoPointsOf(points: Points, document: DocumentId) {
    forall id | id in points :: points[id].document != document
  }

  /** A new document id has no points yet. */
  lemma {:induction false} FreshDocument(points: Points, t: Table, id: DocumentId)
    requires Owned(points, t) && id !in t
    ensures NoPointsOf(points, id)
  {
  }

  ghost predicate PointsStay(a: Points, b: Points, document: DocumentId) {
    forall id | id in a && a[id].document == document :: id in b && b[id] == a[id]
  }

  /**
   * A change that adds points of one document only, and of any other takes away all or none, keeps the
   * collection valid.
   */
  lemma {:induction false} CollectionKept(a: Points, t: Table, b: Points, u: Table, active: nat, added: DocumentId)
    requires CollectionValid(a, t, active) && WellNamed(b) && Owned(b, u)
    requires forall id | id in b :: (id in a && b[id] == a[id]) || b[id].document == added
    requires forall d | Ingested(u, d) && d != added :: Ingested(t, d) && u[d].namespace == t[d].namespace
    requires forall d | Ingested(u, d) && d != added :: PointsStay(a, b, d) || NoPointsOf(b, d)
    requires Ingested(u, added) ==> DocumentValid(b, u[added].namespace, added, active)
    ensures CollectionValid(b, u, active)
  {
    forall d | Ingested(u, d) ensures DocumentValid(b, u[d].namespace, d, active) {
      if d != added {
        var ns := t[d].namespace;
        assert Ingested(t, d) && DocumentValid(a, ns, d, active);
        if PointsStay(a, b, d) {
          forall id ensures id in Matching(a, ns, d, active) <==> id in Matching(b, ns, d, active) {
          }
          DocumentValidSame(a, b, ns, d, active);
        } else {
          assert Matching(b, ns, d, active) == {};
        }
      }
    }
  }

  // ---- Reindex keeps the links ----

  /** A document whose target version holds its copies has the same valid links there. */
  lemma {:induction false} HeldCopiesLinked(before: Points, after: Points, namespace: string, document: DocumentId,
      source: nat, target: nat, embed: Embedder)
    requires DocumentValid(before, namespace, document, source)
    requires HoldsCopies(before, after, namespace, document, source, target, embed)
    ensures DocumentValid(after, namespace, document, target)
  {
    var mine := Matching(after, namespace, document, target);
    forall id | id in mine ensures LinkedPoint(after, mine, after[id]) {
      var x := OriginalOf(before, namespace, document, source, target, embed, id);
      assert LinkedPoint(before, Matching(before, namespace, document, source), before[x]);
      if before[x].parent.Some? {
        CopyIn(before, namespace, document, source, target, embed, before[x].parent.value);
      }
    }
    forall a, b | a in mine && b in mine && after[a].position == after[b].position ensures a == b {
      var x := OriginalOf(before, namespace, document, source, target, embed, a);
      var y := OriginalOf(before, namespace, document, source, target, embed, b);
    }
  }

  /** A completed reindex gives the target version the same valid links. */
  lemma {:induction false} CopiesLinked(before: Points, namespace: string, documents: seq<DocumentId>, source: nat,
      target: nat, embed: Embedder, document: DocumentId)
    requires AllDistinct(before, namespace, documents, source) && document in documents
    requires Overwritten(before, namespace, document, source, target, embed)
    requires Linked(before, namespace, document, source)
    ensures DocumentValid(before + AllCopies(before, namespace, documents, source, target, embed), namespace, document,
                          target)
  {
    TargetHoldsCopies(before, namespace, documents, source, target, embed, document);
    HeldCopiesLinked(before, before + AllCopies(before, namespace, documents, source, target, embed),
                     namespace, document, source, target, embed);
  }

  /** While a reindex runs, and whatever its outcome, the active version stays valid. */
  lemma {:induction false} ReindexKeepsCollection(before: Points, now: Points, t: Table, namespace: string,
      documents: seq<DocumentId>, source: nat, target: nat, embed: Embedder)
    requires CollectionValid(before, t, source) && source != target && AllDistinct(before, namespace, documents, source)
    requires forall d | d in documents :: d in t && t[d].namespace == namespace
    requires ReindexState(before, now, AllCopies(before, namespace, documents, source, target, embed))
    ensures CollectionValid(now, t, source)
  {
    var all := AllCopies(before, namespace, documents, source, target, embed);
    OtherVersionsUntouched(before, now, namespace, documents, source, target, embed, source);
    forall id | id in now
      ensures WellNamedPoint(id, now[id]) && now[id].document in t
         && now[id].namespace == t[now[id].document].namespace
    {
      if id in all {
        AllCopiesAt(before, namespace, documents, source, target, embed, id);
      } else {
        AgreeAt(before, now, all.Keys, id);
      }
    }
    forall d | Ingested(t, d) ensures DocumentValid(now, t[d].namespace, d, source) {
      SourceShared(before, now, t[d].namespace, d, source);
      DocumentValidSame(before, now, t[d].namespace, d, source);
    }
  }

  /**
   * A completed reindex that overwrote what its documents had at the target makes the target valid
   * exactly when every ingested document outside the job was valid there already.
   */
  lemma {:induction false} CompletedTargetValid(before: Points, t: Table, namespace: string, documents: seq<DocumentId>,
      source: nat, target: nat, embed: Embedder)
    requires CollectionValid(before, t, source) && source != target && AllDistinct(before, namespace, documents, source)
    requires Replaceable(before, namespace, documents, source, target, embed)
    requires forall d | d in documents :: Ingested(t, d) && t[d].namespace == namespace
    ensures VersionValid(before + AllCopies(before, namespace, documents, source, target, embed), t, target)
       <==> forall d | Ingested(t, d) && d !in documents :: DocumentValid(before, t[d].namespace, d, target)
  {
    var all := AllCopies(before, namespace, documents, source, target, embed);
    forall id | id in all ensures all[id].document in documents && id.document == all[id].document {
      AllCopiesAt(before, namespace, documents, source, target, embed, id);
    }
    forall d | d in documents ensures DocumentValid(before + all, namespace, d, target) {
      assert DocumentValid(before, namespace, d, source);
      CopiesLinked(before, namespace, documents, source, target, embed, d);
    }
    forall d | Ingested(t, d) && d !in documents
      ensures DocumentValid(before + all, t[d].namespace, d, target)
         <==> DocumentValid(before, t[d].namespace, d, target)
    {
      OutsideUntouched(before, all, t[d].namespace, d, target);
    }
  }

  /** Copies of other documents change nothing of a document at any version. */
  lemma {:induction false} OutsideUntouched(before: Points, all: Points, namespace: string, document: DocumentId,
        version: nat)
    requires WellNamed(before)
    requires forall id | id in all :: all[id].document != document && id.document == all[id].document
    ensures Matching(before + all, namespace, document, version) == Matching(before, namespace, document, version)
    ensures forall id | id in Matching(before, namespace, document, version) :: (before + all)[id] == before[id]
    ensures DocumentValid(before + all, namespace, document, version)
       <==> DocumentValid(before, namespace, document, version)
  {
    var after := before + all;
    forall id | id in before && before[id].document == document ensures id !in all {
      assert WellNamedPoint(id, before[id]);
    }
    assert Matching(after, namespace, document, version) == Matching(before, namespace, document, version);
    if DocumentValid(before, namespace, document, version) {
      DocumentValidSame(before, after, namespace, document, version);
    }
    if DocumentValid(after, namespace, document, version) {
      DocumentValidSame(after, before, namespace, document, version);
    }
  }

  /** Reclaiming any version but the served one keeps the collection valid. */
  lemma {:induction false} ReclaimKeepsCollection(points: Points, t: Table, active: nat, namespace: string,
        version: nat)
    requires CollectionValid(points, t, active) && version != active
    ensures CollectionValid(Reclaimed(points, namespace, version), t, active)
  {
    var after := Reclaimed(points, namespace, version);
    forall d | Ingested(t, d) ensures DocumentValid(after, t[d].namespace, d, active) {
      assert Matching(after, t[d].namespace, d, active) == Matching(points, t[d].namespace, d, active);
      DocumentValidSame(points, after, t[d].namespace, d, active);
    }
  }
}
