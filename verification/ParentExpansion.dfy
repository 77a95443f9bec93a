/** Small-to-big retrieval: children found by a search are shown as the parent that contains them, once per parent. */
module ParentExpansion {
  import opened Support
  import opened ChunkIds
  import opened Chunking
  import opened VectorStores
  import opened DocumentTable
  import opened ChunkLinks
  import opened RetrievalFilters

  type ParentTexts = map<ChunkId, Text>

  datatype Meta = NoParents | RetrieveFailed | Expansion(childrenExpanded: nat, siblingsMerged: nat,
                                                         parentsFetched: nat, after: nat)

  predicate IsFetched(r: SearchResult, texts: ParentTexts) {
    r.parent.Some? && r.parent.value in texts
  }

  /** A later sibling: its parent was fetched and an earlier result shows it already. */
  predicate Merged(results: seq<SearchResult>, i: nat, texts: ParentTexts)
    requires i < |results|
  {
    IsFetched(results[i], texts) && exists j :: 0 <= j < i && results[j].parent == results[i].parent
  }

  /** Only the text changes. */
  function ExpandOne(r: SearchResult, texts: ParentTexts): (e: SearchResult)
    ensures e.(text := r.text) == r
  {
    if IsFetched(r, texts) then r.(text := texts[r.parent.value]) else r
  }

  /** The positions below n that survive, ascending. */
  function Survivors(results: seq<SearchResult>, n: nat, texts: ParentTexts): (kept: seq<nat>)
    requires n <= |results|
    ensures |kept| <= n && forall i | 0 <= i < |kept| :: kept[i] < n
  {
    if n == 0 then []
    else
      var before := Survivors(results, n - 1, texts);
      if Merged(results, n - 1, texts) then before else before + [n - 1]
  }

  function ExpandedUpTo(results: seq<SearchResult>, n: nat, texts: ParentTexts): seq<SearchResult>
    requires n <= |results|
  {
    if n == 0 then []
    else
      var before := ExpandedUpTo(results, n - 1, texts);
      if Merged(results, n - 1, texts) then before else before + [ExpandOne(results[n - 1], texts)]
  }

  function Expanded(results: seq<SearchResult>, texts: ParentTexts): seq<SearchResult> {
    ExpandedUpTo(results, |results|, texts)
  }

  ghost predicate HasChild(results: seq<SearchResult>, q: ChunkId) {
    exists i :: 0 <= i < |results| && results[i].parent == Some(q)
  }

  /** The texts of the parents a fetch returns. */
  ghost function FetchedTexts(s: VectorStore, namespace: string, live: LiveDocuments,
      results: seq<SearchResult>): ParentTexts
    reads s
  {
    map q | q in s.points && Fetchable(s.backend, s.points[q], s.active, namespace, live) && HasChild(results, q) ::
      s.points[q].text
  }

  // ---- The method ----

  /** Each parent id once, in order of first appearance. */
  method UniqueParents(results: seq<SearchResult>) returns (ids: seq<ChunkId>)
    ensures NoDuplicates(ids) && forall q :: q in ids <==> HasChild(results, q)
  {
    ids := [];
    for n := 0 to |results|
      invariant NoDuplicates(ids) && forall q :: q in ids <==> exists i :: 0 <= i < n && results[i].parent == Some(q)
    {
      if results[n].parent.Some? && results[n].parent.value !in ids {
        ids := ids + [results[n].parent.value];
      }
    }
  }

  method TextsOf(found: seq<Entry>) returns (texts: ParentTexts)
    ensures forall q :: q in texts <==> exists e :: e in found && e.0 == q
    ensures forall q | q in texts :: exists e :: e in found && e.0 == q && e.1.text == texts[q]
  {
    texts := map[];
    for n := 0 to |found|
      invariant forall q :: q in texts <==> exists i :: 0 <= i < n && found[i].0 == q
      invariant forall q | q in texts :: exists i :: 0 <= i < n && found[i].0 == q && found[i].1.text == texts[q]
    {
      texts := texts[found[n].0 := found[n].1.text];
    }
    forall q ensures q in texts <==> exists e :: e in found && e.0 == q {
      if e :| e in found && e.0 == q {
        var i :| 0 <= i < |found| && found[i] == e;
      }
    }
  }

  /** Replaces children by their parents, merging later siblings. */
  method Collapse(results: seq<SearchResult>, texts: ParentTexts) returns (expanded: seq<SearchResult>, children: nat,
      merged: nat)
    ensures expanded == Expanded(results, texts)
    ensures |expanded| + merged == |results|
    ensures children == |set q | q in texts && HasChild(results, q)|
  {
    expanded, children, merged := [], 0, 0;
    var seen: set<ChunkId> := {};
    for n := 0 to |results|
      invariant expanded == ExpandedUpTo(results, n, texts) && |expanded| + merged == n && children == |seen|
      invariant forall q :: q in seen <==> q in texts && exists i :: 0 <= i < n && results[i].parent == Some(q)
    {
      if results[n].parent.Some? && results[n].parent.value in texts {
        var q := results[n].parent.value;
        if q in seen {
          merged := merged + 1;
        } else {
          seen := seen + {q};
          children := children + 1;
          expanded := expanded + [results[n].(text := texts[q])];
        }
      } else {
        expanded := expanded + [results[n]];
      }
    }
    assert seen == set q | q in texts && HasChild(results, q);
  }

  /** Fetches the parents and counts what came back. */
  method FetchParents(store: VectorStore, namespace: string, live: LiveDocuments, results: seq<SearchResult>,
        ids: seq<ChunkId>)
    returns (texts: ParentTexts, fetched: nat)
    requires NoDuplicates(ids) && forall q :: q in ids <==> HasChild(results, q)
    ensures texts == FetchedTexts(store, namespace, live, results) && fetched == |texts|
  {
    hide HasChild;
    var found := store.Retrieve(namespace, ids, live);
    texts := TextsOf(found);
    TextsAreFetched(store, namespace, live, results, ids, found, texts);
    OneEntryEach(found, texts);
    fetched := |found|;
  }

  /** The expansion step; without parents, or when the fetch fails, results pass through as they are. */
  method ExpandParents(store: VectorStore, namespace: string, live: LiveDocuments, results: seq<SearchResult>,
      retrieveFails: bool)
    returns (expanded: seq<SearchResult>, meta: Meta)
    ensures (forall q :: !HasChild(results, q)) ==> expanded == results && meta == NoParents
    ensures (exists q :: HasChild(results, q)) && retrieveFails ==> expanded == results && meta == RetrieveFailed
    ensures (exists q :: HasChild(results, q)) && !retrieveFails ==>
      && expanded == Expanded(results, FetchedTexts(store, namespace, live, results))
      && meta.Expansion? && meta.after == |expanded| && meta.after + meta.siblingsMerged == |results|
      && meta.childrenExpanded == meta.parentsFetched == |FetchedTexts(store, namespace, live, results)|
  {
    var ids := UniqueParents(results);
    if ids == [] {
      return results, NoParents;
    }
    assert HasChild(results, ids[0]);
    if retrieveFails {
      return results, RetrieveFailed;
    }
    var texts, fetched := FetchParents(store, namespace, live, results, ids);
    var children, merged;
    expanded, children, merged := Collapse(results, texts);
    assert (set q | q in texts && HasChild(results, q)) == texts.Keys;
    meta := Expansion(children, merged, fetched, |expanded|);
  }

  /** Without repeats, a fetch has as many entries as ids. */
  lemma {:induction false} OneEntryEach(found: seq<Entry>, texts: ParentTexts)
    requires NoDuplicates(found) && forall d, e | d in found && e in found && d.0 == e.0 :: d == e
    requires forall q :: q in texts <==> exists e :: e in found && e.0 == q
    ensures |found| == |texts|
  {
    var entries, idOf := set e | e in found, (e: Entry) => e.0;
    DistinctLength(found);
    forall q | q in texts.Keys ensures exists e :: e in entries && idOf(e) == q {
      var e :| e in found && e.0 == q;
      assert e in entries && idOf(e) == q;
    }
    ImageSize(entries, texts.Keys, idOf);
  }

  lemma {:induction false} TextsAreFetched(store: VectorStore, namespace: string, live: LiveDocuments,
      results: seq<SearchResult>, ids: seq<ChunkId>, found: seq<Entry>, texts: ParentTexts)
    requires forall q :: q in ids <==> HasChild(results, q)
    requires forall e :: e in found <==> e.0 in ids && e.0 in store.points && e.1 == store.points[e.0]
                                         && Fetchable(store.backend, e.1, store.active, namespace, live)
    requires forall q :: q in texts <==> exists e :: e in found && e.0 == q
    requires forall q | q in texts :: exists e :: e in found && e.0 == q && e.1.text == texts[q]
    ensures texts == FetchedTexts(store, namespace, live, results)
  {
    var fetched := FetchedTexts(store, namespace, live, results);
    forall q ensures q in texts <==> q in fetched {
      if q in fetched {
        assert (q, store.points[q]) in found;
      }
    }
    forall q | q in texts ensures texts[q] == fetched[q] {
      var e :| e in found && e.0 == q && e.1.text == texts[q];
    }
  }

  // ---- What expansion guarantees ----

  /** Ids, scores and everything but the text are a subsequence of the input's. */
  lemma {:induction false} ExpandedIsSubsequence(results: seq<SearchResult>, n: nat, texts: ParentTexts)
    requires n <= |results|
    ensures var e, kept := ExpandedUpTo(results, n, texts), Survivors(results, n, texts);
      && |e| == |kept| && (forall i, j | 0 <= i < j < |kept| :: kept[i] < kept[j])
      && (forall i | 0 <= i < |kept| :: e[i] == ExpandOne(results[kept[i]], texts))
      && (forall k: nat | k < n :: k in kept <==> !Merged(results, k, texts))
  {
    hide Merged, ExpandOne;
    if n > 0 {
      ExpandedIsSubsequence(results, n - 1, texts);
    }
  }

  /** A parent that was fetched is shown by its first child only, so by its best one when scores fall. */
  lemma {:induction false} ParentShownOnce(results: seq<SearchResult>, texts: ParentTexts, q: ChunkId)
    requires q in texts && HasChild(results, q)
    ensures var e := Expanded(results, texts);
      exists i :: && 0 <= i < |e| && e[i].parent == Some(q) && e[i].text == texts[q]
                  && (forall j | 0 <= j < |e| && e[j].parent == Some(q) :: j == i)
                  && (Descending(results) ==> forall k | 0 <= k < |results| && results[k].parent == Some(q) ::
                      e[i].score >= results[k].score)
  {
    hide Survivors, ExpandedUpTo;
    var e, kept := Expanded(results, texts), Survivors(results, |results|, texts);
    ExpandedIsSubsequence(results, |results|, texts);
    var first := FirstChild(results, q);
    assert first in kept;
    var i :| 0 <= i < |kept| && kept[i] == first;
    forall j | 0 <= j < |e| && e[j].parent == Some(q) ensures j == i {
      assert kept[j] in kept && results[kept[j]].parent == Some(q) && !Merged(results, kept[j], texts);
      assert kept[j] == first;
    }
    assert e[i] == ExpandOne(results[first], texts);
  }

  ghost function FirstChild(results: seq<SearchResult>, q: ChunkId): (first: nat)
    requires HasChild(results, q)
    ensures first < |results| && results[first].parent == Some(q) && forall j | 0 <= j < first ::
      results[j].parent != Some(q)
    decreases |results|
  {
    if results[0].parent == Some(q) then 0
    else
      var i :| 0 <= i < |results| && results[i].parent == Some(q);
      assert results[1..][i - 1].parent == Some(q);
      var rest := FirstChild(results[1..], q);
      assert forall j | 0 < j < rest + 1 :: results[j] == results[1..][j - 1];
      rest + 1
  }

  lemma {:induction false} NothingMerged(results: seq<SearchResult>, n: nat, texts: ParentTexts)
    requires n <= |results|
    requires forall i | 0 <= i < |results| :: !Merged(results, i, texts) && ExpandOne(results[i], texts) == results[i]
    ensures ExpandedUpTo(results, n, texts) == results[..n]
  {
    if n > 0 {
      NothingMerged(results, n - 1, texts);
      assert results[..n] == results[..n - 1] + [results[n - 1]];
    }
  }

  /** With the texts at hand, expanding an expanded list changes nothing. */
  lemma {:induction false} ExpandingTwice(results: seq<SearchResult>, texts: ParentTexts)
    ensures Expanded(Expanded(results, texts), texts) == Expanded(results, texts)
  {
    var e, kept := Expanded(results, texts), Survivors(results, |results|, texts);
    ExpandedIsSubsequence(results, |results|, texts);
    forall i | 0 <= i < |e| ensures !Merged(e, i, texts) && ExpandOne(e[i], texts) == e[i] {
      assert kept[i] in kept;
      if IsFetched(e[i], texts) {
        forall j | 0 <= j < i ensures e[j].parent != e[i].parent {
          assert kept[j] < kept[i] && !Merged(results, kept[i], texts);
        }
      }
    }
    NothingMerged(e, |e|, texts);
    assert e[..|e|] == e;
  }

  /** A second expansion asks for the same parents: every one fetched is still shown, and no other is named. */
  lemma {:induction false} RefetchIsSame(s: VectorStore, namespace: string, live: LiveDocuments,
        results: seq<SearchResult>)
    ensures var texts := FetchedTexts(s, namespace, live, results);
      FetchedTexts(s, namespace, live, Expanded(results, texts)) == texts
  {
    hide Survivors, ExpandedUpTo, Merged, Descending;
    var texts := FetchedTexts(s, namespace, live, results);
    var e, kept := Expanded(results, texts), Survivors(results, |results|, texts);
    ExpandedIsSubsequence(results, |results|, texts);
    forall q | q in s.points && Fetchable(s.backend, s.points[q], s.active, namespace, live)
      ensures HasChild(e, q) <==> HasChild(results, q)
    {
      if HasChild(results, q) {
        ParentShownOnce(results, texts, q);
      }
      if i :| 0 <= i < |e| && e[i].parent == Some(q) {
        assert results[kept[i]].parent == Some(q);
      }
    }
  }

  /** Expanding an expanded list, its parents fetched anew, changes nothing. */
  lemma {:induction false} ExpansionIsIdempotent(s: VectorStore, namespace: string, live: LiveDocuments,
        results: seq<SearchResult>)
    ensures var once := Expanded(results, FetchedTexts(s, namespace, live, results));
      Expanded(once, FetchedTexts(s, namespace, live, once)) == once
  {
    RefetchIsSame(s, namespace, live, results);
    ExpandingTwice(results, FetchedTexts(s, namespace, live, results));
  }

  /** A hit as a search returns it from the collection. */
  ghost predicate IsHit(s: VectorStore, namespace: string, t: Table, r: SearchResult)
    reads s
  {
    && r.id in SearchView(s.backend, s.points, s.active, namespace, Live(t)) && Ingested(t, s.points[r.id].document)
    && r.text == s.points[r.id].text && r.parent == s.points[r.id].parent
  }

  lemma {:induction false} WholeIsSlice(text: Text)
    ensures IsSlice(text, text)
  {
    assert text <= text[0..];
  }

  /**
   * End to end: over a valid collection every hit on a child chunk finds its parent, and whatever
   * survives shows a text that contains the text found.
   */
  lemma {:induction false} ExpansionCoversHits(s: VectorStore, namespace: string, t: Table, results: seq<SearchResult>)
    requires CollectionValid(s.points, t, s.active)
    requires forall i | 0 <= i < |results| :: IsHit(s, namespace, t, results[i])
    ensures var texts := FetchedTexts(s, namespace, Live(t), results);
      var kept := Survivors(results, |results|, texts);
      && (forall i | 0 <= i < |results| && results[i].parent.Some? ::
            results[i].parent.value in texts && IsSlice(results[i].text, texts[results[i].parent.value]))
      && |Expanded(results, texts)| == |kept|
      && forall k | 0 <= k < |kept| :: IsSlice(results[kept[k]].text, Expanded(results, texts)[k].text)
  {
    hide CollectionValid, SearchView, Survivors, ExpandedUpTo, IsSlice;
    var texts := FetchedTexts(s, namespace, Live(t), results);
    var kept := Survivors(results, |results|, texts);
    forall i | 0 <= i < |results| && results[i].parent.Some?
      ensures results[i].parent.value in texts && IsSlice(results[i].text, texts[results[i].parent.value])
    {
      assert IsHit(s, namespace, t, results[i]);
      SearchableChildHasParent(s.backend, s.points, t, s.active, namespace, results[i].id);
      assert HasChild(results, results[i].parent.value);
    }
    ExpandedIsSubsequence(results, |results|, texts);
    forall k | 0 <= k < |kept| ensures IsSlice(results[kept[k]].text, Expanded(results, texts)[k].text) {
      WholeIsSlice(results[kept[k]].text);
    }
  }
}
