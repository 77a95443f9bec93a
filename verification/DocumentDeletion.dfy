/**
 * The two ways an operator deletes documents. The single delete removes chunks before the row, the
 * batch delete the rows before the chunks; a failure between the two leaves different things behind.
 */
module DocumentDeletion {
  import opened Support
  import opened ChunkIds
  import opened VectorStores
  import opened DocumentTable
  import opened ChunkLinks
  import opened Ingest

  /** Is this a row the request may delete? */
  predicate Deletable(t: Table, namespace: string, id: DocumentId) {
    IsLive(t, id) && t[id].namespace == namespace
  }

  /** Taking away all points of one document, and perhaps deleting its row, keeps the collection valid. */
  lemma {:induction false} RemovalKeeps(points: Points, t: Table, u: Table, namespace: string, id: DocumentId,
      gone: bool, active: nat)
    requires CollectionValid(points, t, active) && (u == t || (u == SoftDelete(t, id, UserRequest) && Ingested(t, id)))
    ensures CollectionValid(if gone then points - PointsOf(points, namespace, id) else points, u, active)
  {
    var b := if gone then points - PointsOf(points, namespace, id) else points;
    if Ingested(u, id) {
      var ns := t[id].namespace;
      assert DocumentValid(points, ns, id, active);
      if gone && ns == namespace {
        assert Matching(b, ns, id, active) == {};
      } else {
        assert Matching(b, ns, id, active) == Matching(points, ns, id, active);
        DocumentValidSame(points, b, ns, id, active);
      }
    }
    CollectionKept(points, t, b, u, active, id);
  }

  /**
   * The single delete: chunks first, then the row. Whichever step fails, no row is deleted while
   * chunks of it remain; the failure mode is a live document without chunks.
   */
  method DeleteDocument(ingest: IngestPipeline, namespace: string, id: DocumentId, deleteFails: bool, commitFails: bool)
    returns (removed: Option<nat>)
    requires ingest.Valid()
    modifies ingest`documents, ingest.store`points, ingest.store`order
    ensures ingest.Valid() && (removed.Some? <==> !deleteFails && !commitFails)
    ensures var before, t := old(ingest.store.points), old(ingest.documents);
      var own := set x | x in before && before[x].namespace == namespace && before[x].document == id;
      && (removed.Some? ==> removed.value == |own|)
      && ingest.store.points == (if deleteFails then before else before - own)
      && ingest.documents == (if removed.Some? && id in t && t[id].deleted == None && t[id].namespace == namespace
                              then t[id := t[id].(deleted := Some(UserRequest))] else t)
    ensures IsLive(old(ingest.documents), id) && !IsLive(ingest.documents, id) ==> NoPointsOf(ingest.store.points, id)
  {
    ghost var t, before := ingest.documents, ingest.store.points;
    var r := ingest.store.Delete(namespace, [id], deleteFails);
    assert PointsOf(before, namespace, id) == set x | x in before && before[x].namespace == namespace
       && before[x].document in [id];
    if r.Err? {
      return None;
    }
    RemovalKeeps(before, t, t, namespace, id, true, ingest.store.active);
    if commitFails {
      return None;
    }
    if Deletable(ingest.documents, namespace, id) {
      SoftDeleteKeeps(t, id, UserRequest);
      RemovalKeeps(before, t, SoftDelete(t, id, UserRequest), namespace, id, true, ingest.store.active);
      ingest.documents := SoftDelete(ingest.documents, id, UserRequest);
    }
    return Some(r.value);
  }

  // ---- The batch delete ----

  /** The rows a batch request deletes, in request order; a repeated id is found only once. */
  function DeletedOf(t: Table, namespace: string, ids: seq<DocumentId>): seq<DocumentId> {
    if ids == [] then []
    else
      var id := ids[|ids| - 1];
      var rest := DeletedOf(t, namespace, ids[..|ids| - 1]);
      if Deletable(t, namespace, id) && id !in rest then rest + [id] else rest
  }

  function SoftDeleteAll(t: Table, ids: seq<DocumentId>): Table {
    if ids == [] then t else SoftDelete(SoftDeleteAll(t, ids[..|ids| - 1]), ids[|ids| - 1], UserRequest)
  }

  /** Exactly the deletable rows of the request, each once. */
  lemma {:induction false} DeletedMembers(t: Table, namespace: string, ids: seq<DocumentId>)
    ensures NoDuplicates(DeletedOf(t, namespace, ids))
    ensures forall d: DocumentId ::
      d in DeletedOf(t, namespace, ids) <==> d in ids && d in t && t[d].deleted == None && t[d].namespace == namespace
  {
    if ids != [] {
      DeletedMembers(t, namespace, ids[..|ids| - 1]);
      assert ids == ids[..|ids| - 1] + [ids[|ids| - 1]];
    }
  }

  lemma {:induction false} SoftDeleteAllKeeps(points: Points, t: Table, ids: seq<DocumentId>, active: nat)
    requires TableValid(t) && CollectionValid(points, t, active) && forall d | d in ids :: Ingested(t, d)
    ensures TableValid(SoftDeleteAll(t, ids)) && CollectionValid(points, SoftDeleteAll(t, ids), active)
    ensures forall d: DocumentId ::
      (d in t <==> d in SoftDeleteAll(t, ids)) && (d in t && d !in ids ==> SoftDeleteAll(t, ids)[d] == t[d])
    ensures forall d: DocumentId ::
      d in t && d in ids ==> SoftDeleteAll(t, ids)[d] == t[d].(deleted := Some(UserRequest))
  {
    hide RowValid, UniqueLive, CollectionValid;
    if ids != [] {
      var front := ids[..|ids| - 1];
      assert ids == front + [ids[|ids| - 1]] && ids[|ids| - 1] in ids;
      SoftDeleteAllKeeps(points, t, front, active);
      SoftDeleteKeeps(SoftDeleteAll(t, front), ids[|ids| - 1], UserRequest);
      RemovalKeeps(points, SoftDeleteAll(t, front), SoftDeleteAll(t, ids), "", ids[|ids| - 1], false, active);
    }
  }

  /** The points the best-effort cleanup takes away: those of deleted documents whose own delete went through. */
  function Cleared(points: Points, namespace: string, deleted: seq<DocumentId>,
      failing: set<DocumentId>): set<ChunkId> {
    set id | id in points && points[id].namespace == namespace && points[id].document in deleted
       && points[id].document !in failing
  }

  /** The cleanup: one delete call per document, each failure logged and passed over. */
  method ClearChunks(ingest: IngestPipeline, namespace: string, deleted: seq<DocumentId>, failing: set<DocumentId>)
    requires ingest.Valid()
    modifies ingest.store`points, ingest.store`order
    ensures ingest.Valid()
    ensures ingest.store.points
         == old(ingest.store.points) - Cleared(old(ingest.store.points), namespace, deleted, failing)
  {
    ghost var before := ingest.store.points;
    assert Cleared(before, namespace, deleted[..0], failing) == {};
    for n := 0 to |deleted|
      invariant ingest.Valid() && ingest.documents == old(ingest.documents)
      invariant ingest.store.points == before - Cleared(before, namespace, deleted[..n], failing)
    {
      ghost var now := ingest.store.points;
      var r := ingest.store.Delete(namespace, [deleted[n]], deleted[n] in failing);
      RemovalKeeps(now, ingest.documents, ingest.documents, namespace, deleted[n], deleted[n] !in failing,
                   ingest.store.active);
      ClearedStep(before, now, namespace, deleted, n, failing);
    }
    assert deleted[..|deleted|] == deleted;
  }

  lemma {:induction false} ClearedStep(before: Points, now: Points, namespace: string, deleted: seq<DocumentId>,
      n: nat, failing: set<DocumentId>)
    requires n < |deleted| && now == before - Cleared(before, namespace, deleted[..n], failing)
    ensures PointsOf(now, namespace, deleted[n]) == set x | x in now && now[x].namespace == namespace
       && now[x].document in [deleted[n]]
    ensures before - Cleared(before, namespace, deleted[..n + 1], failing)
         == if deleted[n] in failing then now else now - PointsOf(now, namespace, deleted[n])
  {
    assert deleted[..n + 1] == deleted[..n] + [deleted[n]];
  }

  /**
   * The batch delete: rows first and in one commit, then chunks as far as that goes. On pgvector a
   * deleted document stops answering with the commit; on Qdrant its chunks answer until their own
   * delete goes through.
   */
  method BatchDelete(ingest: IngestPipeline, namespace: string, ids: seq<DocumentId>, commitFails: bool,
      failing: set<DocumentId>)
    returns (deleted: seq<DocumentId>, notFound: nat)
    requires ingest.Valid()
    modifies ingest`documents, ingest.store`points, ingest.store`order
    ensures ingest.Valid()
    ensures deleted == (if commitFails then [] else DeletedOf(old(ingest.documents), namespace, ids))
    ensures !commitFails ==> NoDuplicates(deleted) && |deleted| + notFound == |ids|
    ensures var t := old(ingest.documents);
      && (!commitFails ==> forall d: DocumentId ::
            d in deleted <==> d in ids && d in t && t[d].deleted == None && t[d].namespace == namespace)
      && ingest.documents.Keys == t.Keys && forall d | d in t ::
        ingest.documents[d] == if d in deleted then t[d].(deleted := Some(UserRequest)) else t[d]
    ensures ingest.documents == SoftDeleteAll(old(ingest.documents), deleted)
    ensures var before := old(ingest.store.points);
      ingest.store.points == before - set id | && id in before && before[id].namespace == namespace
                                               && before[id].document in deleted && before[id].document !in failing
    ensures var s := ingest.store; var before := old(ingest.store.points);
      forall id | && id in SearchView(s.backend, before, s.active, namespace, Live(old(ingest.documents)))
                  && before[id].document in deleted ::
        id in SearchView(s.backend, s.points, s.active, namespace, Live(ingest.documents))
        <==> s.backend.Qdrant? && before[id].document in failing
  {
    ghost var t, before := ingest.documents, ingest.store.points;
    var found := [];
    notFound := 0;
    for n := 0 to |ids|
      invariant ingest.documents == t && found == DeletedOf(t, namespace, ids[..n]) && |found| + notFound == n
    {
      assert ids[..n + 1][..n] == ids[..n];
      if Deletable(ingest.documents, namespace, ids[n]) && ids[n] !in found {
        found := found + [ids[n]];
      } else {
        notFound := notFound + 1;
      }
    }
    assert ids[..|ids|] == ids;
    if commitFails {
      assert Cleared(before, namespace, [], failing) == {};
      return [], notFound;
    }
    DeletedMembers(t, namespace, ids);
    SoftDeleteAllKeeps(before, t, found, ingest.store.active);
    ingest.documents := SoftDeleteAll(ingest.documents, found);
    ClearChunks(ingest, namespace, found, failing);
    return found, notFound;
  }
}
