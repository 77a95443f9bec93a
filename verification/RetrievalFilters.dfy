/** From raw hits to the chunks worth showing: a score threshold with a rescue, then near-duplicates removed. */
module RetrievalFilters {
  import opened Support
  import opened ChunkIds
  import opened Chunking

  /** One hit of a search. */
  datatype SearchResult = SearchResult(id: ChunkId, score: real, text: Text, document: DocumentId, version: nat,
                                       metadata: Metadata, parent: Option<ChunkId>)

  /** The word set of a text: lower-cased and split on white space. */
  type Words = Text -> set<string>

  /** More than four fifths of the smaller word set shared; texts without words duplicate nothing. */
  predicate NearDuplicate(a: SearchResult, b: SearchResult, words: Words) {
    var wa, wb := words(a.text), words(b.text);
    wa != {} && wb != {} && 5 * |wa * wb| > 4 * Min(|wa|, |wb|)
  }

  lemma {:induction false} NearDuplicateSymmetric(a: SearchResult, b: SearchResult, words: Words)
    ensures NearDuplicate(a, b, words) == NearDuplicate(b, a, words)
  {
    assert words(a.text) * words(b.text) == words(b.text) * words(a.text);
  }

  /** The words two texts share, as a part of the smaller word set; 0 if either has no words. */
  ghost function Overlap(a: SearchResult, b: SearchResult, words: Words): real {
    var wa, wb := words(a.text), words(b.text);
    if wa == {} || wb == {} then 0.0
    else |wa * wb| as real / (if |wa| <= |wb| then |wa| else |wb|) as real
  }

  lemma {:induction false} NearDuplicateIff(a: SearchResult, b: SearchResult, words: Words)
    ensures NearDuplicate(a, b, words) <==> Overlap(a, b, words) > 0.8
  {
    var wa, wb := words(a.text), words(b.text);
    if wa != {} && wb != {} {
      RatioAbove(|wa * wb|, if |wa| <= |wb| then |wa| else |wb|);
    }
  }

  lemma {:induction false} SignOfProduct(d: real, y: real)
    requires y > 0.0
    ensures d > 0.0 <==> d * y > 0.0
  {
  }

  lemma {:induction false} RatioAbove(shared: nat, smaller: nat)
    requires smaller > 0
    ensures shared as real / smaller as real > 0.8 <==> 5 * shared > 4 * smaller
  {
    var y := smaller as real;
    var d := shared as real / y - 0.8;
    assert d * y == shared as real - 0.8 * y;
    SignOfProduct(d, y);
  }

  function AtLeast(results: seq<SearchResult>, score: real): seq<SearchResult> {
    if results == [] then []
    else AtLeast(results[..|results| - 1], score)
         + if results[|results| - 1].score >= score then [results[|results| - 1]] else []
  }

  function Falling(r: SearchResult): real {
    -r.score
  }

  function ByScore(results: seq<SearchResult>): seq<SearchResult> {
    SortBy(results, Falling)
  }

  ghost predicate Descending(results: seq<SearchResult>) {
    forall i, j | 0 <= i < j < |results| :: results[i].score >= results[j].score
  }

  function FirstOf(results: seq<SearchResult>, n: nat): seq<SearchResult> {
    if |results| <= n then results else results[..n]
  }

  /** The candidates: those above the threshold or, if there are none, the best few above the floor. */
  function Candidates(results: seq<SearchResult>, minScore: real, rescueTop: int, floor: real): seq<SearchResult> {
    var filtered := AtLeast(results, minScore);
    if filtered == [] && rescueTop > 0 then FirstOf(ByScore(AtLeast(results, floor)), rescueTop) else filtered
  }

  predicate DuplicatesOne(c: SearchResult, kept: seq<SearchResult>, words: Words) {
    exists i :: 0 <= i < |kept| && NearDuplicate(c, kept[i], words)
  }

  /** Keeps each candidate that duplicates none kept before it. */
  function Deduplicated(candidates: seq<SearchResult>, words: Words): seq<SearchResult> {
    if candidates == [] then []
    else
      var kept, c := Deduplicated(candidates[..|candidates| - 1], words), candidates[|candidates| - 1];
      if DuplicatesOne(c, kept, words) then kept else kept + [c]
  }

  function Filtered(results: seq<SearchResult>, minScore: real, dedup: bool, rescueTop: int, floor: real,
      words: Words): seq<SearchResult> {
    var candidates := Candidates(results, minScore, rescueTop, floor);
    if dedup then Deduplicated(ByScore(candidates), words) else candidates
  }

  // ---- The method ----

  method SelectAtLeast(results: seq<SearchResult>, score: real) returns (r: seq<SearchResult>)
    ensures r == AtLeast(results, score)
  {
    r := [];
    for n := 0 to |results|
      invariant r == AtLeast(results[..n], score)
    {
      assert results[..n + 1][..n] == results[..n];
      if results[n].score >= score {
        r := r + [results[n]];
      }
    }
    assert results[..|results|] == results;
  }

  method IsDuplicate(c: SearchResult, kept: seq<SearchResult>, words: Words) returns (found: bool)
    ensures found == DuplicatesOne(c, kept, words)
  {
    found := false;
    for n := 0 to |kept|
      invariant !found && forall i | 0 <= i < n :: !NearDuplicate(c, kept[i], words)
    {
      if NearDuplicate(c, kept[n], words) {
        return true;
      }
    }
  }

  method ApplyRetrievalFilter(results: seq<SearchResult>, minScore: real, dedup: bool, rescueTop: int, floor: real,
      words: Words)
    returns (kept: seq<SearchResult>, rescued: nat)
    ensures kept == Filtered(results, minScore, dedup, rescueTop, floor, words)
    ensures !dedup ==> kept == Candidates(results, minScore, rescueTop, floor)
    ensures rescued == if rescueTop > 0 && forall c | c in results :: c.score < minScore
                       then Min(rescueTop, |AtLeast(results, floor)|) else 0
  {
    AtLeastMembers(results, minScore);
    SortByMembers(AtLeast(results, floor), Falling);
    var filtered := SelectAtLeast(results, minScore);
    assert filtered != [] ==> filtered[0] in filtered;
    rescued := 0;
    if filtered == [] && rescueTop > 0 {
      var above := SelectAtLeast(results, floor);
      filtered := FirstOf(ByScore(above), rescueTop);
      rescued := |filtered|;
    }
    if !dedup {
      return filtered, rescued;
    }
    var sorted := ByScore(filtered);
    kept := [];
    for n := 0 to |sorted|
      invariant kept == Deduplicated(sorted[..n], words)
    {
      assert sorted[..n + 1][..n] == sorted[..n];
      var duplicate := IsDuplicate(sorted[n], kept, words);
      if !duplicate {
        kept := kept + [sorted[n]];
      }
    }
    assert sorted[..|sorted|] == sorted;
  }

  // ---- What the filter returns ----

  lemma {:induction false} AtLeastMembers(results: seq<SearchResult>, score: real)
    ensures forall c :: c in AtLeast(results, score) <==> c in results && c.score >= score
    ensures |AtLeast(results, score)| <= |results|
  {
    if results != [] {
      AtLeastMembers(results[..|results| - 1], score);
      assert results == results[..|results| - 1] + [results[|results| - 1]];
    }
  }

  lemma {:induction false} AtLeastAll(results: seq<SearchResult>, score: real)
    requires forall c | c in results :: c.score >= score
    ensures AtLeast(results, score) == results
  {
    if results != [] {
      var front, last := results[..|results| - 1], results[|results| - 1];
      assert last in results && results == front + [last];
      AtLeastAll(front, score);
    }
  }

  lemma {:induction false} AtLeastNone(results: seq<SearchResult>, score: real)
    requires forall c | c in results :: c.score < score
    ensures AtLeast(results, score) == []
  {
    if results != [] {
      AtLeastNone(results[..|results| - 1], score);
    }
  }

  lemma {:induction false} ByScoreFacts(results: seq<SearchResult>)
    ensures Descending(ByScore(results)) && |ByScore(results)| == |results|
    ensures forall c :: c in ByScore(results) <==> c in results
  {
    SortByFacts(results, Falling, 0.0);
    SortByMembers(results, Falling);
    var sorted := ByScore(results);
    forall i, j | 0 <= i < j < |sorted| ensures sorted[i].score >= sorted[j].score {
      assert Falling(sorted[i]) <= Falling(sorted[j]);
    }
  }

  lemma {:induction false} ByScoreIdentity(results: seq<SearchResult>)
    requires Descending(results)
    ensures ByScore(results) == results
  {
    SortByIdentity(results, Falling);
  }

  ghost predicate NoNearDuplicates(results: seq<SearchResult>, words: Words) {
    forall i, j | 0 <= i < j < |results| :: !NearDuplicate(results[j], results[i], words)
  }

  /** A dropped candidate is explained by a kept one of at least its score. */
  ghost predicate Explained(c: SearchResult, kept: seq<SearchResult>, words: Words) {
    c in kept || exists k :: k in kept && NearDuplicate(c, k, words) && k.score >= c.score
  }

  lemma {:induction false} DeduplicatedFacts(candidates: seq<SearchResult>, words: Words)
    requires Descending(candidates)
    ensures var kept := Deduplicated(candidates, words);
      && Descending(kept) && NoNearDuplicates(kept, words) && |kept| <= |candidates|
      && (forall c | c in kept :: c in candidates)
      && (forall c | c in candidates :: Explained(c, kept, words))
  {
    hide NearDuplicate, Explained;
    if candidates != [] {
      var front, last := candidates[..|candidates| - 1], candidates[|candidates| - 1];
      DeduplicatedFacts(front, words);
      DeduplicatedStep(front, last, Deduplicated(front, words), words);
      assert candidates == front + [last];
    }
  }

  lemma {:induction false} DeduplicatedStep(front: seq<SearchResult>, last: SearchResult, kept: seq<SearchResult>,
      words: Words)
    requires Descending(kept) && NoNearDuplicates(kept, words)
    requires forall c | c in front :: c.score >= last.score
    requires forall c | c in kept :: c in front
    requires forall c | c in front :: Explained(c, kept, words)
    ensures var now := if DuplicatesOne(last, kept, words) then kept else kept + [last];
      && Descending(now) && NoNearDuplicates(now, words)
      && forall c | c in front + [last] :: Explained(c, now, words)
  {
    hide NearDuplicate;
    var now := if DuplicatesOne(last, kept, words) then kept else kept + [last];
    assert forall i | 0 <= i < |kept| :: kept[i] in kept;
    if DuplicatesOne(last, kept, words) {
      var i :| 0 <= i < |kept| && NearDuplicate(last, kept[i], words);
      assert kept[i] in kept;
    } else {
      assert now[|kept|] == last;
    }
    forall c | c in front + [last] ensures Explained(c, now, words) {
      if c in front && c !in kept {
        var k :| k in kept && NearDuplicate(c, k, words) && k.score >= c.score;
        assert k in now;
      }
    }
  }

  /**
   * With deduplication on: sorted by score, no two share more than four fifths of the smaller word set, only
   * candidates, and every candidate left out shares more with a kept one that scores at least as high. So no
   * candidate can be added.
   */
  lemma {:induction false} FilterIsMaximal(results: seq<SearchResult>, minScore: real, rescueTop: int, floor: real,
      words: Words)
    ensures var kept := Filtered(results, minScore, true, rescueTop, floor, words);
      var candidates := Candidates(results, minScore, rescueTop, floor);
      && (forall i, j | 0 <= i < j < |kept| ::
            kept[i].score >= kept[j].score && Overlap(kept[j], kept[i], words) <= 0.8)
      && (forall c | c in kept :: c in candidates)
      && (forall c | c in candidates && c !in kept ::
            exists k :: k in kept && Overlap(c, k, words) > 0.8 && k.score >= c.score)
  {
    var candidates := Candidates(results, minScore, rescueTop, floor);
    var kept := Filtered(results, minScore, true, rescueTop, floor, words);
    ByScoreFacts(candidates);
    DeduplicatedFacts(ByScore(candidates), words);
    forall i, j | 0 <= i < j < |kept| ensures Overlap(kept[j], kept[i], words) <= 0.8 {
      NearDuplicateIff(kept[j], kept[i], words);
    }
    forall c | c in candidates && c !in kept
      ensures exists k :: k in kept && Overlap(c, k, words) > 0.8 && k.score >= c.score
    {
      var k :| k in kept && NearDuplicate(c, k, words) && k.score >= c.score;
      NearDuplicateIff(c, k, words);
    }
  }

  lemma {:induction false} DeduplicatedIdentity(kept: seq<SearchResult>, words: Words)
    requires NoNearDuplicates(kept, words)
    ensures Deduplicated(kept, words) == kept
  {
    if kept != [] {
      var front, last := kept[..|kept| - 1], kept[|kept| - 1];
      assert kept == front + [last];
      assert !DuplicatesOne(last, front, words);
      DeduplicatedIdentity(front, words);
    }
  }

  /** The hits at or above a score, in their order: each is decided on its own, wherever the list is split. */
  lemma {:induction false} AtLeastHitByHit(a: seq<SearchResult>, b: seq<SearchResult>, score: real)
    ensures AtLeast(a + b, score) == AtLeast(a, score) + AtLeast(b, score)
  {
    if b == [] {
      assert a + b == a;
    } else {
      var front, last := b[..|b| - 1], b[|b| - 1];
      AtLeastHitByHit(a, front, score);
      assert (a + b)[..|a + b| - 1] == a + front && (a + b)[|a + b| - 1] == last;
      Associate(AtLeast(a, score), AtLeast(front, score), if last.score >= score then [last] else []);
    }
  }

  /**
   * The candidates are exactly the hits at or above the threshold or, if there are none and a rescue is
   * asked for, the best rescueTop hits at or above the floor: sorted, as many as there are up to rescueTop,
   * none left out above one taken.
   */
  lemma {:induction false} CandidatesFacts(results: seq<SearchResult>, minScore: real, rescueTop: int, floor: real)
    ensures var candidates := Candidates(results, minScore, rescueTop, floor);
      if rescueTop <= 0 || exists c :: c in results && c.score >= minScore
      then candidates == AtLeast(results, minScore)
           && forall c :: c in candidates <==> c in results && c.score >= minScore
      else && (forall c | c in candidates :: c in results && floor <= c.score < minScore)
           && Descending(candidates) && |candidates| == Min(rescueTop, |AtLeast(results, floor)|)
           && forall c | c in results && c.score >= floor && c !in candidates :: forall k | k in candidates ::
             k.score >= c.score
  {
    AtLeastMembers(results, minScore);
    if AtLeast(results, minScore) == [] && rescueTop > 0 {
      var above := AtLeast(results, floor);
      AtLeastMembers(results, floor);
      ByScoreFacts(above);
      forall c | c in Candidates(results, minScore, rescueTop, floor)
        ensures c in results && floor <= c.score < minScore
      {
        assert c in ByScore(above);
      }
      forall c | c in results && c.score >= floor && c !in FirstOf(ByScore(above), rescueTop)
        ensures forall k | k in FirstOf(ByScore(above), rescueTop) :: k.score >= c.score
      {
        FirstAreBest(ByScore(above), rescueTop, c);
      }
    } else if AtLeast(results, minScore) != [] {
      assert AtLeast(results, minScore)[0] in AtLeast(results, minScore);
    }
  }

  /** A cut of a sorted list keeps its best. */
  lemma {:induction false} FirstAreBest(sorted: seq<SearchResult>, n: nat, left: SearchResult)
    requires Descending(sorted) && left in sorted && left !in FirstOf(sorted, n)
    ensures forall c | c in FirstOf(sorted, n) :: c.score >= left.score
  {
    var r := FirstOf(sorted, n);
    assert forall i | 0 <= i < |r| :: sorted[i] == r[i];
    var j :| 0 <= j < |sorted| && sorted[j] == left;
    assert j >= |r|;
  }

  /** What is all above the threshold, or few enough between floor and threshold and sorted, passes as it is. */
  lemma {:induction false} CandidatesIdentity(kept: seq<SearchResult>, minScore: real, rescueTop: int, floor: real)
    requires || (forall c | c in kept :: c.score >= minScore)
             || (rescueTop > 0 && |kept| <= rescueTop && (forall c | c in kept :: floor <= c.score < minScore)
                 && Descending(kept))
    ensures Candidates(kept, minScore, rescueTop, floor) == kept
  {
    if forall c | c in kept :: c.score >= minScore {
      AtLeastAll(kept, minScore);
      if kept == [] {
        assert ByScore(AtLeast(kept, floor)) == [];
      }
    } else {
      AtLeastNone(kept, minScore);
      AtLeastAll(kept, floor);
      ByScoreIdentity(kept);
    }
  }

  /** Filtering the filtered list again, rescue included, returns it unchanged. */
  lemma {:induction false} FilterIsIdempotent(results: seq<SearchResult>, minScore: real, dedup: bool, rescueTop: int,
      floor: real, words: Words)
    ensures var kept := Filtered(results, minScore, dedup, rescueTop, floor, words);
      Filtered(kept, minScore, dedup, rescueTop, floor, words) == kept
  {
    var candidates := Candidates(results, minScore, rescueTop, floor);
    var kept := Filtered(results, minScore, dedup, rescueTop, floor, words);
    CandidatesFacts(results, minScore, rescueTop, floor);
    if dedup {
      FilterIsMaximal(results, minScore, rescueTop, floor, words);
      ByScoreFacts(candidates);
      DeduplicatedFacts(ByScore(candidates), words);
      CandidatesIdentity(kept, minScore, rescueTop, floor);
      ByScoreIdentity(kept);
      DeduplicatedIdentity(kept, words);
    } else {
      CandidatesIdentity(kept, minScore, rescueTop, floor);
    }
  }
}
