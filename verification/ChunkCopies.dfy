/**
 * What a reindex adds to the collection, as a map: every chunk of a document at the source
 * version, relabelled, re-embedded and stored under the target version.
 */
module ChunkCopies {
  import opened Support
  import opened ChunkIds
  import opened Chunking
  import opened VectorStores

  type Embedder = Text -> Vector

  /** The parent link after the id map: remapped when the parent is listed, dropped otherwise. */
  function NewParent(points: Points, namespace: string, document: DocumentId, source: nat, target: nat,
      parent: Option<ChunkId>): Option<ChunkId> {
    if parent.Some? && parent.value in Matching(points, namespace, document, source)
    then Some(TargetChunkId(document, points[parent.value].position, target)) else None
  }

  function CopyOf(points: Points, namespace: string, document: DocumentId, source: nat, target: nat, embed: Embedder,
      p: Point): Point {
    p.(version := target, dense := embed(p.text),
       parent := NewParent(points, namespace, document, source, target, p.parent))
  }

  /** The copies of some chunks of one document, each under its target id. */
  ghost function CopiesFrom(points: Points, namespace: string, document: DocumentId, source: nat, target: nat,
      embed: Embedder, ids: set<ChunkId>): Points
    requires ids <= points.Keys
  {
    if ids == {} then map[]
    else
      var x :| x in ids;
      CopiesFrom(points, namespace, document, source, target, embed, ids - {x})
        [TargetChunkId(document, points[x].position, target) :=
         CopyOf(points, namespace, document, source, target, embed, points[x])]
  }

  /** The copies of one document: of all its chunks at the source version. */
  ghost function Copies(points: Points, namespace: string, document: DocumentId, source: nat, target: nat,
      embed: Embedder): Points {
    CopiesFrom(points, namespace, document, source, target, embed, Matching(points, namespace, document, source))
  }

  lemma {:induction false} CopiesFromOriginal(points: Points, namespace: string, document: DocumentId, source: nat,
      target: nat, embed: Embedder, ids: set<ChunkId>, id: ChunkId) returns (original: ChunkId)
    requires ids <= points.Keys && id in CopiesFrom(points, namespace, document, source, target, embed, ids)
    ensures original in ids && id == TargetChunkId(document, points[original].position, target)
    ensures CopiesFrom(points, namespace, document, source, target, embed, ids)[id]
         == CopyOf(points, namespace, document, source, target, embed, points[original])
  {
    var x :| x in ids && CopiesFrom(points, namespace, document, source, target, embed, ids)
      == CopiesFrom(points, namespace, document, source, target, embed, ids - {x})
           [TargetChunkId(document, points[x].position, target) :=
            CopyOf(points, namespace, document, source, target, embed, points[x])];
    if id == TargetChunkId(document, points[x].position, target) {
      original := x;
    } else {
      original := CopiesFromOriginal(points, namespace, document, source, target, embed, ids - {x}, id);
    }
  }

  lemma {:induction false} CopiesFromHas(points: Points, namespace: string, document: DocumentId, source: nat,
      target: nat, embed: Embedder, ids: set<ChunkId>, original: ChunkId)
    requires ids <= points.Keys && original in ids
    ensures TargetChunkId(document, points[original].position, target)
         in CopiesFrom(points, namespace, document, source, target, embed, ids)
  {
    var x :| x in ids && CopiesFrom(points, namespace, document, source, target, embed, ids)
      == CopiesFrom(points, namespace, document, source, target, embed, ids - {x})
           [TargetChunkId(document, points[x].position, target) :=
            CopyOf(points, namespace, document, source, target, embed, points[x])];
    if x != original {
      CopiesFromHas(points, namespace, document, source, target, embed, ids - {x}, original);
    }
  }

  /** The original a copy was made from. */
  lemma {:induction false} OriginalOf(points: Points, namespace: string, document: DocumentId, source: nat,
      target: nat, embed: Embedder, id: ChunkId)
    returns (original: ChunkId)
    requires id in Copies(points, namespace, document, source, target, embed)
    ensures original in Matching(points, namespace, document, source)
    ensures id == TargetChunkId(document, points[original].position, target)
    ensures Copies(points, namespace, document, source, target, embed)[id]
         == CopyOf(points, namespace, document, source, target, embed, points[original])
  {
    original := CopiesFromOriginal(points, namespace, document, source, target, embed,
                                   Matching(points, namespace, document, source), id);
  }

  /** With distinct positions every chunk has its own copy. */
  lemma {:induction false} CopyIn(points: Points, namespace: string, document: DocumentId, source: nat, target: nat,
      embed: Embedder, original: ChunkId)
    requires DistinctPositions(points, namespace, document, source)
    requires original in Matching(points, namespace, document, source)
    ensures var id := TargetChunkId(document, points[original].position, target);
      && id in Copies(points, namespace, document, source, target, embed)
      && Copies(points, namespace, document, source, target, embed)[id]
         == CopyOf(points, namespace, document, source, target, embed, points[original])
  {
    CopiesFromHas(points, namespace, document, source, target, embed, Matching(points, namespace, document, source),
                  original);
    var x := OriginalOf(points, namespace, document, source, target, embed,
                        TargetChunkId(document, points[original].position, target));
  }

  ghost predicate AllDistinct(points: Points, namespace: string, documents: seq<DocumentId>, version: nat) {
    forall d | d in documents :: DistinctPositions(points, namespace, d, version)
  }

  /** The copies of the first n documents. */
  ghost function CopiesUpTo(points: Points, namespace: string, documents: seq<DocumentId>, n: nat, source: nat,
      target: nat, embed: Embedder): Points
    requires n <= |documents| && AllDistinct(points, namespace, documents, source)
  {
    if n == 0 then map[]
    else CopiesUpTo(points, namespace, documents, n - 1, source, target, embed)
         + Copies(points, namespace, documents[n - 1], source, target, embed)
  }

  /** The copies of all documents of a job. */
  ghost function AllCopies(points: Points, namespace: string, documents: seq<DocumentId>, source: nat, target: nat,
      embed: Embedder): Points
    requires AllDistinct(points, namespace, documents, source)
  {
    CopiesUpTo(points, namespace, documents, |documents|, source, target, embed)
  }

  /** How many chunks the first n documents have at a version. */
  function ChunkTotal(points: Points, namespace: string, documents: seq<DocumentId>, n: nat, version: nat): nat
    requires n <= |documents|
  {
    if n == 0 then 0
    else ChunkTotal(points, namespace, documents, n - 1, version)
         + |Matching(points, namespace, documents[n - 1], version)|
  }

  lemma {:induction false} CopiesSize(points: Points, namespace: string, document: DocumentId, source: nat,
      target: nat, embed: Embedder)
    requires DistinctPositions(points, namespace, document, source)
    ensures |Copies(points, namespace, document, source, target, embed)|
         == |Matching(points, namespace, document, source)|
  {
    var originals := Matching(points, namespace, document, source);
    var rename := (id: ChunkId) => TargetChunkId(document, if id in points then points[id].position else 0, target);
    var copies := Copies(points, namespace, document, source, target, embed);
    forall y | y in copies.Keys ensures exists x :: x in originals && rename(x) == y {
      var x := OriginalOf(points, namespace, document, source, target, embed, y);
      assert rename(x) == y;
    }
    forall x | x in originals ensures rename(x) in copies.Keys {
      CopyIn(points, namespace, document, source, target, embed, x);
    }
    ImageSize(originals, copies.Keys, rename);
  }

  /** A copy belongs to its document, at the target version, and its id says so. */
  lemma {:induction false} CopiesUpToAt(points: Points, namespace: string, documents: seq<DocumentId>, n: nat,
      source: nat, target: nat, embed: Embedder, id: ChunkId)
    requires n <= |documents| && AllDistinct(points, namespace, documents, source)
    requires id in CopiesUpTo(points, namespace, documents, n, source, target, embed)
    ensures var p := CopiesUpTo(points, namespace, documents, n, source, target, embed)[id];
      && p.document in documents[..n] && p.document in documents && p.version == target && p.namespace == namespace
      && id == TargetChunkId(p.document, p.position, target)
      && id in Copies(points, namespace, p.document, source, target, embed)
      && p == Copies(points, namespace, p.document, source, target, embed)[id]
  {
    var last := documents[n - 1];
    if id in Copies(points, namespace, last, source, target, embed) {
      var original := OriginalOf(points, namespace, last, source, target, embed, id);
    } else {
      CopiesUpToAt(points, namespace, documents, n - 1, source, target, embed, id);
    }
  }

  lemma {:induction false} AllCopiesAt(points: Points, namespace: string, documents: seq<DocumentId>, source: nat,
      target: nat, embed: Embedder, id: ChunkId)
    requires AllDistinct(points, namespace, documents, source)
    requires id in AllCopies(points, namespace, documents, source, target, embed)
    ensures var p := AllCopies(points, namespace, documents, source, target, embed)[id];
      && p.document in documents && p.version == target && p.namespace == namespace
      && id == TargetChunkId(p.document, p.position, target)
      && id in Copies(points, namespace, p.document, source, target, embed)
      && p == Copies(points, namespace, p.document, source, target, embed)[id]
  {
    CopiesUpToAt(points, namespace, documents, |documents|, source, target, embed, id);
  }

  lemma {:induction false} CopyDocument(points: Points, namespace: string, document: DocumentId, source: nat,
      target: nat, embed: Embedder, id: ChunkId)
    requires DistinctPositions(points, namespace, document, source)
    ensures id in Copies(points, namespace, document, source, target, embed) ==> id.document == document
  {
    if id in Copies(points, namespace, document, source, target, embed) {
      var original := OriginalOf(points, namespace, document, source, target, embed, id);
    }
  }

  lemma {:induction false} CopiesUpToHas(points: Points, namespace: string, documents: seq<DocumentId>, n: nat,
      source: nat, target: nat, embed: Embedder, document: DocumentId, id: ChunkId)
    requires n <= |documents| && AllDistinct(points, namespace, documents, source) && document in documents[..n]
    requires id in Copies(points, namespace, document, source, target, embed)
    ensures id in CopiesUpTo(points, namespace, documents, n, source, target, embed)
    ensures CopiesUpTo(points, namespace, documents, n, source, target, embed)[id]
         == Copies(points, namespace, document, source, target, embed)[id]
  {
    CopyDocument(points, namespace, document, source, target, embed, id);
    CopyDocument(points, namespace, documents[n - 1], source, target, embed, id);
    if documents[n - 1] != document {
      assert documents[..n] == documents[..n - 1] + [documents[n - 1]];
      CopiesUpToHas(points, namespace, documents, n - 1, source, target, embed, document, id);
    }
  }

  lemma {:induction false} AllCopiesHas(points: Points, namespace: string, documents: seq<DocumentId>, source: nat,
      target: nat, embed: Embedder, document: DocumentId, id: ChunkId)
    requires AllDistinct(points, namespace, documents, source) && document in documents
    requires id in Copies(points, namespace, document, source, target, embed)
    ensures id in AllCopies(points, namespace, documents, source, target, embed)
    ensures AllCopies(points, namespace, documents, source, target, embed)[id]
         == Copies(points, namespace, document, source, target, embed)[id]
  {
    assert documents[..|documents|] == documents;
    CopiesUpToHas(points, namespace, documents, |documents|, source, target, embed, document, id);
  }

  // ---- A copy is the chunk embedded anew ----

  /**
   * b[id] is a[x] embedded anew under the target version: its text embedded now, position, text, sparse
   * vector, level and metadata as they are, and the link to the copy of its parent, if that is listed too.
   */
  ghost predicate IsReembedded(a: Points, x: ChunkId, b: Points, id: ChunkId, target: nat, embed: Embedder)
    requires x in a
  {
    && id == TargetChunkId(a[x].document, a[x].position, target) && id in b
    && b[id].dense == embed(a[x].text) && b[id].text == a[x].text
    && b[id].namespace == a[x].namespace && b[id].version == target && b[id].document == a[x].document
    && b[id].position == a[x].position && b[id].sparse == a[x].sparse
    && b[id].level == a[x].level && b[id].metadata == a[x].metadata
    && (a[x].parent.None? ==> b[id].parent == None)
    && (forall q | a[x].parent == Some(q) ::
          b[id].parent == if q in a && At(a[q], a[x].namespace, a[x].document, a[x].version)
                          then Some(TargetChunkId(a[x].document, a[q].position, target)) else None)
  }

  /** Whatever b has that a had not is a chunk of the documents embedded anew. */
  ghost predicate OnlyReembedded(a: Points, b: Points, namespace: string, documents: seq<DocumentId>, source: nat,
      target: nat, embed: Embedder) {
    forall id | id in b && !(id in a && b[id] == a[id]) ::
      && b[id].dense == embed(b[id].text)
      && exists x :: && x in a && a[x].document in documents && At(a[x], namespace, a[x].document, source)
                     && IsReembedded(a, x, b, id, target, embed)
  }

  /** Every chunk of the documents at the source version stands embedded anew at the target. */
  ghost predicate AllReembedded(a: Points, b: Points, namespace: string, documents: seq<DocumentId>, source: nat,
      target: nat, embed: Embedder) {
    forall x | x in a && a[x].document in documents && At(a[x], namespace, a[x].document, source) ::
      IsReembedded(a, x, b, TargetChunkId(a[x].document, a[x].position, target), target, embed)
  }

  lemma {:induction false} StatesReembed(before: Points, now: Points, namespace: string, documents: seq<DocumentId>,
      source: nat, target: nat, embed: Embedder)
    requires AllDistinct(before, namespace, documents, source)
    requires ReindexState(before, now, AllCopies(before, namespace, documents, source, target, embed))
    ensures OnlyReembedded(before, now, namespace, documents, source, target, embed)
  {
    var all := AllCopies(before, namespace, documents, source, target, embed);
    forall id | id in now && !(id in before && now[id] == before[id])
      ensures now[id].dense == embed(now[id].text)
      ensures exists x :: && x in before && before[x].document in documents
                          && At(before[x], namespace, before[x].document, source)
                          && IsReembedded(before, x, now, id, target, embed)
    {
      if id !in all {
        AgreeAt(before, now, all.Keys, id);
      }
      AllCopiesAt(before, namespace, documents, source, target, embed, id);
      var x := OriginalOf(before, namespace, all[id].document, source, target, embed, id);
      assert IsReembedded(before, x, now, id, target, embed);
    }
  }

  lemma {:induction false} CompleteReembeds(before: Points, now: Points, namespace: string, documents: seq<DocumentId>,
      source: nat, target: nat, embed: Embedder)
    requires AllDistinct(before, namespace, documents, source)
    requires forall id | id in AllCopies(before, namespace, documents, source, target, embed) ::
      id in now && now[id] == AllCopies(before, namespace, documents, source, target, embed)[id]
    ensures AllReembedded(before, now, namespace, documents, source, target, embed)
  {
    forall x | x in before && before[x].document in documents && At(before[x], namespace, before[x].document, source)
      ensures IsReembedded(before, x, now, TargetChunkId(before[x].document, before[x].position, target), target, embed)
    {
      var d := before[x].document;
      CopyIn(before, namespace, d, source, target, embed, x);
      AllCopiesHas(before, namespace, documents, source, target, embed, d,
                   TargetChunkId(d, before[x].position, target));
    }
  }

  // ---- The live version never notices ----

  /**
   * Any state a reindex can leave: outside the target ids nothing moved, and at a target id stands the
   * copy, what stood there before, or nothing. It covers complete, partial, rejected and repeated runs.
   */
  ghost predicate ReindexState(before: Points, now: Points, copies: Points) {
    && AgreeOutside(before, now, copies.Keys)
    && forall id | id in copies && id in now :: now[id] == copies[id] || (id in before && now[id] == before[id])
  }

  lemma {:induction false} AgreeAt(a: Points, b: Points, ids: set<ChunkId>, id: ChunkId)
    requires AgreeOutside(a, b, ids) && id !in ids
    ensures id in a <==> id in b
    ensures id in a ==> a[id] == b[id]
  {
    assert id in a <==> id in a - ids;
    assert id in b <==> id in b - ids;
    if id in a {
      assert (a - ids)[id] == (b - ids)[id];
    }
  }

  /** In every such state each version but the target is exactly what it was. */
  lemma {:induction false} OtherVersionsUntouched(before: Points, now: Points, namespace: string,
      documents: seq<DocumentId>, source: nat, target: nat, embed: Embedder, version: nat)
    requires WellNamed(before) && AllDistinct(before, namespace, documents, source) && version != target
    requires ReindexState(before, now, AllCopies(before, namespace, documents, source, target, embed))
    ensures VersionPart(now, version) == VersionPart(before, version)
  {
    var copies := AllCopies(before, namespace, documents, source, target, embed);
    forall id
      ensures id in VersionPart(now, version) <==> id in VersionPart(before, version)
      ensures id in VersionPart(now, version) ==> now[id] == before[id]
    {
      if id in copies {
        AllCopiesAt(before, namespace, documents, source, target, embed, id);
        TargetIdAtItsVersion(before, copies[id].document, copies[id].position, target);
      } else {
        AgreeAt(before, now, copies.Keys, id);
      }
    }
  }

  /** What reads see at a version depends on that version's points alone. */
  lemma {:induction false} ViewsDependOnVersion(a: Points, b: Points, backend: Backend, version: nat,
      namespace: string, live: LiveDocuments)
    requires VersionPart(a, version) == VersionPart(b, version)
    ensures SearchView(backend, a, version, namespace, live) == SearchView(backend, b, version, namespace, live)
    ensures (set id | id in a && Counted(backend, a[id], version, Some(namespace), live))
         == (set id | id in b && Counted(backend, b[id], version, Some(namespace), live))
    ensures forall d :: Matching(a, namespace, d, version) == Matching(b, namespace, d, version)
    ensures forall r, d :: IsListing(r, a, namespace, d, version) <==> IsListing(r, b, namespace, d, version)
  {
    forall id ensures id in a && a[id].version == version <==> id in b && b[id].version == version {
      assert id in VersionPart(a, version) <==> id in VersionPart(b, version);
    }
    forall id | id in a && a[id].version == version ensures a[id] == b[id] {
      assert VersionPart(a, version)[id] == VersionPart(b, version)[id];
    }
    forall d ensures Matching(a, namespace, d, version) == Matching(b, namespace, d, version) {
    }
    forall r, d ensures IsListing(r, a, namespace, d, version) <==> IsListing(r, b, namespace, d, version) {
      assert Matching(a, namespace, d, version) == Matching(b, namespace, d, version);
      assert forall id | id in Matching(a, namespace, d, version) :: a[id] == b[id];
    }
  }

  lemma {:induction false} SourceShared(a: Points, b: Points, namespace: string, document: DocumentId, source: nat)
    requires VersionPart(a, source) == VersionPart(b, source)
    ensures Matching(a, namespace, document, source) == Matching(b, namespace, document, source)
    ensures forall id | id in Matching(a, namespace, document, source) :: a[id] == b[id]
    ensures DistinctPositions(a, namespace, document, source) <==> DistinctPositions(b, namespace, document, source)
  {
    ViewsDependOnVersion(a, b, Qdrant, source, namespace, map[]);
    assert Matching(a, namespace, document, source) == Matching(b, namespace, document, source);
    forall id | id in Matching(a, namespace, document, source) ensures a[id] == b[id] {
      assert VersionPart(a, source)[id] == VersionPart(b, source)[id];
    }
  }

  /** Copies are made from the source version alone, so they are the same in any two states that share it. */
  lemma {:induction false} CopiesDependOnSource(a: Points, b: Points, namespace: string, document: DocumentId,
      source: nat, target: nat, embed: Embedder)
    requires VersionPart(a, source) == VersionPart(b, source)
    requires DistinctPositions(a, namespace, document, source)
    ensures DistinctPositions(b, namespace, document, source)
    ensures Copies(a, namespace, document, source, target, embed)
         == Copies(b, namespace, document, source, target, embed)
    ensures Matching(a, namespace, document, source) == Matching(b, namespace, document, source)
  {
    SourceShared(a, b, namespace, document, source);
    var these, those := Copies(a, namespace, document, source, target, embed),
                        Copies(b, namespace, document, source, target, embed);
    forall id | id in these ensures id in those && these[id] == those[id] {
      var x := OriginalOf(a, namespace, document, source, target, embed, id);
      CopyIn(b, namespace, document, source, target, embed, x);
    }
    forall id | id in those ensures id in these {
      var x := OriginalOf(b, namespace, document, source, target, embed, id);
      CopyIn(a, namespace, document, source, target, embed, x);
    }
  }

  lemma {:induction false} AllDistinctDependOnSource(a: Points, b: Points, namespace: string,
      documents: seq<DocumentId>, source: nat)
    requires VersionPart(a, source) == VersionPart(b, source)
    requires AllDistinct(a, namespace, documents, source)
    ensures AllDistinct(b, namespace, documents, source)
  {
    forall d | d in documents ensures DistinctPositions(b, namespace, d, source) {
      CopiesDependOnSource(a, b, namespace, d, source, source, text => Vector([]));
    }
  }

  lemma {:induction false} CopiesUpToDependOnSource(a: Points, b: Points, namespace: string,
      documents: seq<DocumentId>, n: nat, source: nat, target: nat, embed: Embedder)
    requires VersionPart(a, source) == VersionPart(b, source) && n <= |documents|
    requires AllDistinct(a, namespace, documents, source) && AllDistinct(b, namespace, documents, source)
    ensures CopiesUpTo(a, namespace, documents, n, source, target, embed)
         == CopiesUpTo(b, namespace, documents, n, source, target, embed)
  {
    if n > 0 {
      CopiesUpToDependOnSource(a, b, namespace, documents, n - 1, source, target, embed);
      CopiesDependOnSource(a, b, namespace, documents[n - 1], source, target, embed);
    }
  }

  lemma {:induction false} OverlayAbsorbs(a: Points, b: Points, top: Points)
    requires AgreeOutside(a, b, top.Keys)
    ensures b + top == a + top
  {
    forall id | id !in top ensures (id in a <==> id in b) && (id in a ==> a[id] == b[id]) {
      AgreeAt(a, b, top.Keys, id);
    }
  }

  /** Re-running over whatever a partial run left gives the store of one complete run. */
  lemma {:induction false} RerunConverges(before: Points, partial: Points, namespace: string,
      documents: seq<DocumentId>, source: nat, target: nat, embed: Embedder)
    requires WellNamed(before) && AllDistinct(before, namespace, documents, source) && source != target
    requires ReindexState(before, partial, AllCopies(before, namespace, documents, source, target, embed))
    ensures AllDistinct(partial, namespace, documents, source)
    ensures partial + AllCopies(partial, namespace, documents, source, target, embed)
         == before + AllCopies(before, namespace, documents, source, target, embed)
  {
    OtherVersionsUntouched(before, partial, namespace, documents, source, target, embed, source);
    AllDistinctDependOnSource(before, partial, namespace, documents, source);
    CopiesUpToDependOnSource(before, partial, namespace, documents, |documents|, source, target, embed);
    OverlayAbsorbs(before, partial, AllCopies(before, namespace, documents, source, target, embed));
  }

  // ---- The copy is exact ----

  /** A chunk as it reads back from the target version. */
  function Relabel(points: Points, namespace: string, document: DocumentId, source: nat, target: nat,
      c: StoredChunk): StoredChunk {
    c.(id := TargetChunkId(document, c.position, target),
       parent := NewParent(points, namespace, document, source, target, c.parent))
  }

  /**
   * Whatever the documents already have at the target is overwritten by the copies. A fresh target
   * and the target of an earlier run are both of this kind; one filled by ingest is not.
   */
  ghost predicate Replaceable(points: Points, namespace: string, documents: seq<DocumentId>, source: nat, target: nat,
      embed: Embedder) {
    forall d | d in documents :: Overwritten(points, namespace, d, source, target, embed)
  }

  ghost predicate Overwritten(points: Points, namespace: string, document: DocumentId, source: nat, target: nat,
      embed: Embedder) {
    Matching(points, namespace, document, target) <= Copies(points, namespace, document, source, target, embed).Keys
  }

  /** Points written over all a document had at a version are all it has there. */
  lemma {:induction false} OnlyAdded(before: Points, all: Points, mine: Points, namespace: string,
      document: DocumentId, version: nat)
    requires forall id | id in mine :: id in all && all[id] == mine[id] && At(mine[id], namespace, document, version)
    requires forall id | id in all && all[id].document == document :: id in mine
    ensures Matching(before + all, namespace, document, version) == mine.Keys
       <==> Matching(before, namespace, document, version) - all.Keys <= mine.Keys
    ensures forall id | id in mine :: (before + all)[id] == mine[id]
  {
    forall id ensures id in Matching(before + all, namespace, document, version)
                 <==> id in mine || id in Matching(before, namespace, document, version) - all.Keys
    {
    }
  }

  lemma {:induction false} CopiesAmongAll(before: Points, namespace: string, documents: seq<DocumentId>, source: nat,
      target: nat, embed: Embedder, document: DocumentId)
    requires AllDistinct(before, namespace, documents, source) && document in documents
    ensures var all := AllCopies(before, namespace, documents, source, target, embed);
      var copies := Copies(before, namespace, document, source, target, embed);
      && (forall id | id in copies :: id in all && all[id] == copies[id] && At(copies[id], namespace, document, target))
      && (forall id | id in all && all[id].document == document :: id in copies)
  {
    var all := AllCopies(before, namespace, documents, source, target, embed);
    var copies := Copies(before, namespace, document, source, target, embed);
    forall id | id in copies ensures id in all && all[id] == copies[id] && At(copies[id], namespace, document, target) {
      AllCopiesHas(before, namespace, documents, source, target, embed, document, id);
      var x := OriginalOf(before, namespace, document, source, target, embed, id);
    }
    forall id | id in all && all[id].document == document ensures id in copies {
      AllCopiesAt(before, namespace, documents, source, target, embed, id);
    }
  }

  /**
   * After the copy a document's target version holds its copies and nothing else exactly when all it
   * had there before stood at ids the copies overwrite.
   */
  lemma {:induction false} TargetExactIff(before: Points, namespace: string, documents: seq<DocumentId>, source: nat,
      target: nat, embed: Embedder, document: DocumentId)
    requires WellNamed(before) && AllDistinct(before, namespace, documents, source) && document in documents
    ensures var copies := Copies(before, namespace, document, source, target, embed);
      Matching(before + AllCopies(before, namespace, documents, source, target, embed), namespace, document, target)
           == copies.Keys
      <==> Matching(before, namespace, document, target) <= copies.Keys
  {
    var all := AllCopies(before, namespace, documents, source, target, embed);
    var copies := Copies(before, namespace, document, source, target, embed);
    CopiesAmongAll(before, namespace, documents, source, target, embed, document);
    OnlyAdded(before, all, copies, namespace, document, target);
    forall id | id in Matching(before, namespace, document, target) && id in all ensures id in copies {
      AllCopiesAt(before, namespace, documents, source, target, embed, id);
      assert WellNamedPoint(id, before[id]);
    }
  }

  /** If what the document has at the target is overwritten, it ends up with its copies there and nothing else. */
  lemma {:induction false} TargetHoldsCopies(before: Points, namespace: string, documents: seq<DocumentId>,
      source: nat, target: nat, embed: Embedder, document: DocumentId)
    requires AllDistinct(before, namespace, documents, source) && document in documents
    requires Overwritten(before, namespace, document, source, target, embed)
    ensures var after := before + AllCopies(before, namespace, documents, source, target, embed);
      var copies := Copies(before, namespace, document, source, target, embed);
      && Matching(after, namespace, document, target) == copies.Keys
      && (forall id | id in copies :: after[id] == copies[id])
      && DistinctPositions(after, namespace, document, target)
  {
    var all := AllCopies(before, namespace, documents, source, target, embed);
    var copies := Copies(before, namespace, document, source, target, embed);
    CopiesAmongAll(before, namespace, documents, source, target, embed, document);
    OnlyAdded(before, all, copies, namespace, document, target);
    forall a, b | a in copies && b in copies && copies[a].position == copies[b].position ensures a == b {
      var x := OriginalOf(before, namespace, document, source, target, embed, a);
      var y := OriginalOf(before, namespace, document, source, target, embed, b);
    }
  }

  lemma {:induction false} SortedListsEqual(a: seq<StoredChunk>, b: seq<StoredChunk>)
    requires forall i, j | 0 <= i < j < |a| :: a[i].position < a[j].position
    requires forall i, j | 0 <= i < j < |b| :: b[i].position < b[j].position
    requires forall c :: c in a <==> c in b
    ensures a == b
  {
    assert a != [] ==> a[0] in b;
    assert b != [] ==> b[0] in a;
    if a != [] {
      assert a[0] == b[0];
      forall c ensures c in a[1..] <==> c in b[1..] {
        assert c in a <==> c == a[0] || c in a[1..];
        assert c in b <==> c == b[0] || c in b[1..];
      }
      SortedListsEqual(a[1..], b[1..]);
    }
  }

  lemma {:induction false} StrictListing(r: seq<StoredChunk>, points: Points, namespace: string, document: DocumentId,
      version: nat)
    requires IsListing(r, points, namespace, document, version)
    requires DistinctPositions(points, namespace, document, version)
    ensures forall i, j | 0 <= i < j < |r| :: r[i].position < r[j].position
  {
    forall i, j | 0 <= i < j < |r| ensures r[i].position < r[j].position {
      assert r[i] in r && r[j] in r;
      assert points[r[i].id].position == r[i].position && points[r[j].id].position == r[j].position;
    }
  }

  /** With distinct positions a document has one listing. */
  lemma {:induction false} ListingUnique(a: seq<StoredChunk>, b: seq<StoredChunk>, points: Points, namespace: string,
      document: DocumentId, version: nat)
    requires IsListing(a, points, namespace, document, version) && IsListing(b, points, namespace, document, version)
    requires DistinctPositions(points, namespace, document, version)
    ensures a == b
  {
    StrictListing(a, points, namespace, document, version);
    StrictListing(b, points, namespace, document, version);
    SortedListsEqual(a, b);
  }

  /**
   * At every state of a reindex, failed ones included, reads of the served version answer as before it:
   * the same listing of every document, the same search results, the same count.
   */
  lemma {:induction false} ServedReadsUnchanged(before: Points, now: Points, job: string, documents: seq<DocumentId>,
      source: nat, target: nat, embed: Embedder, backend: Backend, namespace: string, live: LiveDocuments,
      document: DocumentId, was: seq<StoredChunk>, listed: seq<StoredChunk>)
    requires WellNamed(before) && AllDistinct(before, job, documents, source) && source != target
    requires ReindexState(before, now, AllCopies(before, job, documents, source, target, embed))
    requires DistinctPositions(before, namespace, document, source)
    requires IsListing(was, before, namespace, document, source) && IsListing(listed, now, namespace, document, source)
    ensures listed == was
    ensures SearchView(backend, now, source, namespace, live) == SearchView(backend, before, source, namespace, live)
    ensures |set id | id in now && Counted(backend, now[id], source, Some(namespace), live)|
         == |set id | id in before && Counted(backend, before[id], source, Some(namespace), live)|
  {
    OtherVersionsUntouched(before, now, job, documents, source, target, embed, source);
    ViewsDependOnVersion(before, now, backend, source, namespace, live);
    ListingUnique(was, listed, before, namespace, document, source);
  }

  /**
   * After a completed reindex that overwrote all the document had at the target, it reads back as an
   * exact relabelled copy: same count and order, same position, text, sparse vector, level and metadata, and every
   * parent link follows the id map.
   */
  lemma {:induction false} CopyIsExact(before: Points, namespace: string, documents: seq<DocumentId>, source: nat,
      target: nat, embed: Embedder, document: DocumentId, was: seq<StoredChunk>, now: seq<StoredChunk>)
    requires AllDistinct(before, namespace, documents, source) && document in documents
    requires Overwritten(before, namespace, document, source, target, embed)
    requires IsListing(was, before, namespace, document, source)
    requires IsListing(now, before + AllCopies(before, namespace, documents, source, target, embed), namespace,
                       document, target)
    ensures now == Relabelled(before, namespace, document, source, target, was)
  {
    var after := before + AllCopies(before, namespace, documents, source, target, embed);
    TargetHoldsCopies(before, namespace, documents, source, target, embed, document);
    ListingsMatch(before, after, namespace, document, source, target, embed, was, now);
  }

  lemma {:induction false} ListingsMatch(before: Points, after: Points, namespace: string, document: DocumentId,
      source: nat, target: nat, embed: Embedder, was: seq<StoredChunk>, now: seq<StoredChunk>)
    requires HoldsCopies(before, after, namespace, document, source, target, embed)
    requires DistinctPositions(after, namespace, document, target)
    requires IsListing(was, before, namespace, document, source) && IsListing(now, after, namespace, document, target)
    ensures now == Relabelled(before, namespace, document, source, target, was)
  {
    var r := Relabelled(before, namespace, document, source, target, was);
    StrictListing(was, before, namespace, document, source);
    StrictListing(now, after, namespace, document, target);
    forall c ensures c in r <==> c in now {
      if c in r {
        var i :| 0 <= i < |r| && r[i] == c;
        CopyListed(before, after, namespace, document, source, target, embed, was, now, i);
      }
      if c in now {
        var i := OriginalListed(before, after, namespace, document, source, target, embed, was, now, c);
        assert r[i] == c;
      }
    }
    SortedListsEqual(r, now);
  }

  /** `after` holds the document's copies at the target and nothing else there. */
  ghost predicate HoldsCopies(before: Points, after: Points, namespace: string, document: DocumentId, source: nat,
      target: nat, embed: Embedder) {
    && DistinctPositions(before, namespace, document, source)
    && Matching(after, namespace, document, target) == Copies(before, namespace, document, source, target, embed).Keys
    && forall id | id in Copies(before, namespace, document, source, target, embed) ::
         id in after && after[id] == Copies(before, namespace, document, source, target, embed)[id]
  }

  lemma {:induction false} CopyListed(before: Points, after: Points, namespace: string, document: DocumentId,
      source: nat, target: nat, embed: Embedder, was: seq<StoredChunk>, now: seq<StoredChunk>, i: nat)
    requires HoldsCopies(before, after, namespace, document, source, target, embed) && i < |was|
    requires IsListing(was, before, namespace, document, source) && IsListing(now, after, namespace, document, target)
    ensures Relabel(before, namespace, document, source, target, was[i]) in now
  {
    assert was[i] in was;
    CopyReadsBack(before, after, namespace, document, source, target, embed, was[i].id);
  }

  lemma {:induction false} OriginalListed(before: Points, after: Points, namespace: string, document: DocumentId,
      source: nat, target: nat, embed: Embedder, was: seq<StoredChunk>, now: seq<StoredChunk>,
      c: StoredChunk) returns (i: nat)
    requires HoldsCopies(before, after, namespace, document, source, target, embed) && c in now
    requires IsListing(was, before, namespace, document, source) && IsListing(now, after, namespace, document, target)
    ensures i < |was| && Relabel(before, namespace, document, source, target, was[i]) == c
  {
    assert c.id in Matching(after, namespace, document, target);
    var x := OriginalOf(before, namespace, document, source, target, embed, c.id);
    CopyReadsBack(before, after, namespace, document, source, target, embed, x);
    assert StoredAs(x, before[x]) in was;
    i :| 0 <= i < |was| && was[i] == StoredAs(x, before[x]);
  }

  /** A copy reads back as the relabelled original. */
  lemma {:induction false} CopyReadsBack(before: Points, after: Points, namespace: string, document: DocumentId,
      source: nat, target: nat, embed: Embedder, original: ChunkId)
    requires HoldsCopies(before, after, namespace, document, source, target, embed)
    requires original in Matching(before, namespace, document, source)
    ensures var id := TargetChunkId(document, before[original].position, target);
      && id in Copies(before, namespace, document, source, target, embed) && id in after
      && StoredAs(id, after[id])
           == Relabel(before, namespace, document, source, target, StoredAs(original, before[original]))
  {
    CopyIn(before, namespace, document, source, target, embed, original);
  }

  function Relabelled(points: Points, namespace: string, document: DocumentId, source: nat, target: nat,
      r: seq<StoredChunk>): seq<StoredChunk> {
    seq(|r|, i requires 0 <= i < |r| => Relabel(points, namespace, document, source, target, r[i]))
  }

  /** Links commute with the relabelling: a copy's parent is the copy of the parent. */
  lemma {:induction false} LinksCommute(before: Points, namespace: string, documents: seq<DocumentId>, source: nat,
      target: nat, embed: Embedder, document: DocumentId, id: ChunkId)
    requires AllDistinct(before, namespace, documents, source) && document in documents
    requires Overwritten(before, namespace, document, source, target, embed)
    requires id in Matching(before, namespace, document, source)
    requires before[id].parent.Some? && before[id].parent.value in Matching(before, namespace, document, source)
    ensures var after := before + AllCopies(before, namespace, documents, source, target, embed);
      var copy, parentCopy := TargetChunkId(document, before[id].position, target),
                              TargetChunkId(document, before[before[id].parent.value].position, target);
      && copy in after && after[copy].parent == Some(parentCopy)
      && parentCopy in after && after[parentCopy].text == before[before[id].parent.value].text
      && after[parentCopy].level == before[before[id].parent.value].level
  {
    TargetHoldsCopies(before, namespace, documents, source, target, embed, document);
    CopyIn(before, namespace, document, source, target, embed, id);
    CopyIn(before, namespace, document, source, target, embed, before[id].parent.value);
  }

  // ---- Totals ----

  /** The stored points of a namespace that belong to some documents. */
  function OfDocuments(points: Points, namespace: string, documents: seq<DocumentId>): set<ChunkId> {
    set id | id in points && points[id].namespace == namespace && points[id].document in documents
  }

  function OfVersion(points: Points, namespace: string, version: nat): set<ChunkId> {
    set id | id in points && points[id].namespace == namespace && points[id].version == version
  }

  /** The store once the old version has been reclaimed. */
  function Reclaimed(points: Points, namespace: string, version: nat): Points {
    points - OfVersion(points, namespace, version)
  }

  /** No point of the documents stands at the target yet. */
  ghost predicate FreshTarget(points: Points, namespace: string, documents: seq<DocumentId>, target: nat) {
    forall id | id in OfDocuments(points, namespace, documents) :: points[id].version != target
  }

  /** A fresh target can be replaced, and none of its ids is taken by the documents. */
  lemma {:induction false} FreshTargetReplaceable(before: Points, namespace: string, documents: seq<DocumentId>,
      source: nat, target: nat, embed: Embedder)
    requires WellNamed(before) && AllDistinct(before, namespace, documents, source)
    requires FreshTarget(before, namespace, documents, target)
    ensures Replaceable(before, namespace, documents, source, target, embed)
    ensures OfDocuments(before, namespace, documents)
         !! AllCopies(before, namespace, documents, source, target, embed).Keys
  {
    var all := AllCopies(before, namespace, documents, source, target, embed);
    forall id | id in OfDocuments(before, namespace, documents) ensures id !in all {
      if id in all {
        AllCopiesAt(before, namespace, documents, source, target, embed, id);
      }
    }
    forall d | d in documents ensures Overwritten(before, namespace, d, source, target, embed) {
      assert Matching(before, namespace, d, target) <= OfDocuments(before, namespace, documents);
    }
  }

  /** The documents' points at one version. */
  function DocumentsAt(points: Points, namespace: string, documents: seq<DocumentId>, version: nat): set<ChunkId> {
    set id | id in OfDocuments(points, namespace, documents) && points[id].version == version
  }

  lemma {:induction false} OneDocumentMore(points: Points, namespace: string, front: seq<DocumentId>, last: DocumentId,
      version: nat)
    requires last !in front
    ensures DocumentsAt(points, namespace, front, version) !! Matching(points, namespace, last, version)
    ensures DocumentsAt(points, namespace, front + [last], version)
         == DocumentsAt(points, namespace, front, version) + Matching(points, namespace, last, version)
  {
  }

  /** Without repeated documents the chunk total is the number of their points. */
  lemma {:induction false} TotalIsSize(points: Points, namespace: string, documents: seq<DocumentId>, n: nat,
        version: nat)
    requires NoDuplicates(documents) && n <= |documents|
    ensures ChunkTotal(points, namespace, documents, n, version)
         == |DocumentsAt(points, namespace, documents[..n], version)|
  {
    hide Matching;
    if n == 0 {
      assert DocumentsAt(points, namespace, documents[..0], version) == {};
    } else {
      TotalIsSize(points, namespace, documents, n - 1, version);
      assert documents[..n] == documents[..n - 1] + [documents[n - 1]];
      OneDocumentMore(points, namespace, documents[..n - 1], documents[n - 1], version);
    }
  }

  /** There are as many copies as originals. */
  lemma {:induction false} CopiesMatchOriginals(before: Points, namespace: string, documents: seq<DocumentId>,
      source: nat, target: nat, embed: Embedder)
    requires AllDistinct(before, namespace, documents, source)
    ensures |AllCopies(before, namespace, documents, source, target, embed)|
         == |DocumentsAt(before, namespace, documents, source)|
  {
    var all := AllCopies(before, namespace, documents, source, target, embed);
    var originals := DocumentsAt(before, namespace, documents, source);
    forall x | x in originals ensures Rename(before, target)(x) in all {
      var d := before[x].document;
      CopyIn(before, namespace, d, source, target, embed, x);
      AllCopiesHas(before, namespace, documents, source, target, embed, d, Rename(before, target)(x));
    }
    forall y | y in all.Keys ensures exists x :: x in originals && Rename(before, target)(x) == y {
      AllCopiesAt(before, namespace, documents, source, target, embed, y);
      var x := OriginalOf(before, namespace, all[y].document, source, target, embed, y);
      assert Rename(before, target)(x) == y && x in originals;
    }
    RenameInjective(before, namespace, documents, source, target);
    ImageSize(originals, all.Keys, Rename(before, target));
  }

  lemma {:induction false} RenameInjective(before: Points, namespace: string, documents: seq<DocumentId>, source: nat,
      target: nat)
    requires AllDistinct(before, namespace, documents, source)
    ensures var originals := DocumentsAt(before, namespace, documents, source);
      forall x, y | x in originals && y in originals && Rename(before, target)(x) == Rename(before, target)(y) :: x == y
  {
    var originals := DocumentsAt(before, namespace, documents, source);
    forall x, y | x in originals && y in originals && Rename(before, target)(x) == Rename(before, target)(y)
      ensures x == y
    {
      assert DistinctPositions(before, namespace, before[x].document, source);
      assert x in Matching(before, namespace, before[x].document, source)
         && y in Matching(before, namespace, before[x].document, source);
    }
  }

  function Rename(points: Points, target: nat): ChunkId -> ChunkId {
    (id: ChunkId) => if id in points then TargetChunkId(points[id].document, points[id].position, target) else id
  }

  /** Copying and reclaiming drops the originals and puts the copies over whatever stood at their ids. */
  lemma {:induction false} AfterReclaim(before: Points, all: Points, namespace: string, documents: seq<DocumentId>,
      source: nat, target: nat)
    requires source != target
    requires forall id | id in all ::
      all[id].document in documents && all[id].version == target && all[id].namespace == namespace
    ensures var after := Reclaimed(before + all, namespace, source);
      && OfDocuments(after, namespace, documents)
         == OfDocuments(before, namespace, documents) - DocumentsAt(before, namespace, documents, source) - all.Keys
              + all.Keys
      && OfVersion(after, namespace, target) == OfVersion(before, namespace, target) - all.Keys + all.Keys
  {
  }

  lemma {:induction false} CopiesAreTheirs(before: Points, namespace: string, documents: seq<DocumentId>, source: nat,
      target: nat, embed: Embedder)
    requires WellNamed(before) && AllDistinct(before, namespace, documents, source) && source != target
    ensures var all := AllCopies(before, namespace, documents, source, target, embed);
      && (forall id | id in all ::
          all[id].document in documents && all[id].version == target && all[id].namespace == namespace)
      && OfVersion(before, namespace, source) !! all.Keys
  {
    var all := AllCopies(before, namespace, documents, source, target, embed);
    forall id | id in all
      ensures all[id].document in documents && all[id].version == target && all[id].namespace == namespace
      ensures id !in OfVersion(before, namespace, source)
    {
      AllCopiesAt(before, namespace, documents, source, target, embed, id);
      assert id in before ==> WellNamedPoint(id, before[id]);
    }
  }

  lemma {:induction false} ExchangeSize<T>(whole: set<T>, gone: set<T>, added: set<T>)
    requires gone <= whole && gone !! added
    ensures |whole - gone - added + added| + |gone| + |whole * added| == |whole| + |added|
  {
    assert |whole| == |whole - gone| + |gone|;
    assert (whole - gone) * added == whole * added;
    assert |whole - gone| == |(whole - gone) - added| + |whole * added|;
    assert |whole - gone - added + added| == |whole - gone - added| + |added|;
  }

  /**
   * Reindex, switch and reclaim conserve the namespace's total for the job's documents up to the target
   * ids they already held, whose points the copies replace. Nothing else the namespace holds matters.
   */
  lemma {:induction false} TotalConserved(before: Points, namespace: string, documents: seq<DocumentId>, source: nat,
      target: nat, embed: Embedder)
    requires WellNamed(before) && AllDistinct(before, namespace, documents, source) && source != target
    ensures var all := AllCopies(before, namespace, documents, source, target, embed);
      var after := Reclaimed(before + all, namespace, source);
      && |OfDocuments(after, namespace, documents)| + |OfDocuments(before, namespace, documents) * all.Keys|
         == |OfDocuments(before, namespace, documents)|
      && (|OfDocuments(after, namespace, documents)| == |OfDocuments(before, namespace, documents)|
          <==> OfDocuments(before, namespace, documents) !! all.Keys)
  {
    hide OfDocuments, OfVersion, AllCopies, Reclaimed;
    var all := AllCopies(before, namespace, documents, source, target, embed);
    CopiesAreTheirs(before, namespace, documents, source, target, embed);
    AfterReclaim(before, all, namespace, documents, source, target);
    CopiesMatchOriginals(before, namespace, documents, source, target, embed);
    OriginalsUntaken(before, namespace, documents, source, all.Keys);
    ExchangeSize(OfDocuments(before, namespace, documents), DocumentsAt(before, namespace, documents, source),
                 all.Keys);
  }

  lemma {:induction false} OriginalsUntaken(before: Points, namespace: string, documents: seq<DocumentId>, source: nat,
      ids: set<ChunkId>)
    requires OfVersion(before, namespace, source) !! ids
    ensures DocumentsAt(before, namespace, documents, source) <= OfVersion(before, namespace, source)
    ensures DocumentsAt(before, namespace, documents, source) <= OfDocuments(before, namespace, documents)
    ensures DocumentsAt(before, namespace, documents, source) !! ids
  {
  }

  /**
   * The count Qdrant reports, which does not look at source_documents: it counts the served version.
   * Points of documents outside the job leave it, points the target already held join it. With a target
   * fresh in the namespace it comes back to its old value exactly when the job covered every counted point.
   */
  lemma {:induction false} QdrantCountRestoredIff(before: Points, namespace: string, documents: seq<DocumentId>,
      source: nat, target: nat, embed: Embedder)
    requires WellNamed(before) && AllDistinct(before, namespace, documents, source) && source != target
    ensures var all := AllCopies(before, namespace, documents, source, target, embed);
      var after := Reclaimed(before + all, namespace, source);
      var outside := OfVersion(before, namespace, source) - DocumentsAt(before, namespace, documents, source);
      && |OfVersion(after, namespace, target)| + |outside|
         == |OfVersion(before, namespace, source)| + |OfVersion(before, namespace, target) - all.Keys|
      && (OfVersion(before, namespace, target) == {} ==>
            (|OfVersion(after, namespace, target)| == |OfVersion(before, namespace, source)|
             <==> forall id | id in OfVersion(before, namespace, source) :: before[id].document in documents))
  {
    var all := AllCopies(before, namespace, documents, source, target, embed);
    var counted, mine := OfVersion(before, namespace, source), DocumentsAt(before, namespace, documents, source);
    CopiesAreTheirs(before, namespace, documents, source, target, embed);
    AfterReclaim(before, all, namespace, documents, source, target);
    CopiesMatchOriginals(before, namespace, documents, source, target, embed);
    var kept := OfVersion(before, namespace, target) - all.Keys;
    assert |kept + all.Keys| == |kept| + |all.Keys|;
    assert mine <= counted && |counted| == |mine| + |counted - mine|;
    if OfVersion(before, namespace, target) == {} {
      assert kept == {};
      if forall id | id in counted :: before[id].document in documents {
        assert counted - mine == {};
      } else {
        var id :| id in counted && before[id].document !in documents;
        assert id in counted - mine;
      }
    }
  }
}
