/** Hybrid search: a dense and a sparse ranking combined by reciprocal rank fusion. */
module RankFusion {
  import opened Support
  import opened ChunkIds
  import opened RetrievalFilters

  const RRF_K := 60
  const FETCH_LIMIT := 100

  /** A search by one kind of vector: the best hits, at most as many as asked for, best first. */
  type Ranking = nat -> seq<SearchResult>

  ghost predicate DistinctIds(hits: seq<SearchResult>) {
    forall i, j | 0 <= i < j < |hits| :: hits[i].id != hits[j].id
  }

  predicate Has(hits: seq<SearchResult>, id: ChunkId) {
    exists i :: 0 <= i < |hits| && hits[i].id == id
  }

  ghost predicate IsRanking(search: Ranking) {
    forall k: nat :: |search(k)| <= k && DistinctIds(search(k))
  }

  /** One-based position of an id, or the default for an id that is not there. */
  function Rank(hits: seq<SearchResult>, id: ChunkId, missing: nat): nat {
    if hits == [] then missing
    else if hits[|hits| - 1].id == id then |hits|
    else Rank(hits[..|hits| - 1], id, missing)
  }

  lemma {:induction false} RankFacts(hits: seq<SearchResult>, id: ChunkId, missing: nat)
    requires missing > |hits|
    ensures var rank := Rank(hits, id, missing);
      && 1 <= rank <= missing && (rank < missing <==> Has(hits, id))
         && (rank < missing ==> rank <= |hits| && hits[rank - 1].id == id)
  {
    if hits != [] {
      var front, last := hits[..|hits| - 1], hits[|hits| - 1];
      RankFacts(front, id, missing);
      if last.id != id {
        if i :| 0 <= i < |hits| && hits[i].id == id {
          assert front[i].id == id;
        }
      }
    }
  }

  function Reciprocal(rank: nat): (r: real)
    ensures 0.0 < r <= 1.0
  {
    1.0 / (RRF_K + rank) as real
  }

  function FusedScore(dense: seq<SearchResult>, sparse: seq<SearchResult>, missing: nat, id: ChunkId): real {
    Reciprocal(Rank(dense, id, missing)) + Reciprocal(Rank(sparse, id, missing))
  }

  /** The hits that the other list does not have. */
  function OnlyIn(hits: seq<SearchResult>, other: seq<SearchResult>): seq<SearchResult> {
    if hits == [] then []
    else OnlyIn(hits[..|hits| - 1], other) + if Has(other, hits[|hits| - 1].id) then [] else [hits[|hits| - 1]]
  }

  /** Every hit once: the dense ones first, then the sparse ones they lack. */
  function Union(dense: seq<SearchResult>, sparse: seq<SearchResult>): seq<SearchResult> {
    dense + OnlyIn(sparse, dense)
  }

  function Rescored(hits: seq<SearchResult>, dense: seq<SearchResult>, sparse: seq<SearchResult>,
      missing: nat): (r: seq<SearchResult>)
    ensures |r| == |hits| && forall i | 0 <= i < |hits| ::
      r[i] == hits[i].(score := FusedScore(dense, sparse, missing, hits[i].id))
  {
    seq(|hits|, i requires 0 <= i < |hits| => hits[i].(score := FusedScore(dense, sparse, missing, hits[i].id)))
  }

  function Fused(dense: seq<SearchResult>, sparse: seq<SearchResult>, missing: nat, topK: nat): seq<SearchResult> {
    FirstOf(ByScore(Rescored(Union(dense, sparse), dense, sparse, missing)), topK)
  }

  // ---- The method ----

  function RankFrom(ranks: map<ChunkId, nat>, id: ChunkId, missing: nat): nat {
    if id in ranks then ranks[id] else missing
  }

  method RankMap(hits: seq<SearchResult>) returns (ranks: map<ChunkId, nat>)
    ensures forall id, missing: nat :: RankFrom(ranks, id, missing) == Rank(hits, id, missing)
  {
    ranks := map[];
    for n := 0 to |hits|
      invariant forall id, missing: nat :: RankFrom(ranks, id, missing) == Rank(hits[..n], id, missing)
    {
      assert hits[..n + 1][..n] == hits[..n];
      ranks := ranks[hits[n].id := n + 1];
    }
    assert hits[..|hits|] == hits;
  }

  method CollectAll(dense: seq<SearchResult>, sparse: seq<SearchResult>) returns (all: seq<SearchResult>)
    requires DistinctIds(dense) && DistinctIds(sparse)
    ensures all == Union(dense, sparse)
  {
    all := dense;
    var known := set r | r in dense :: r.id;
    for n := 0 to |sparse|
      invariant all == dense + OnlyIn(sparse[..n], dense)
      invariant forall id :: id in known <==> Has(dense, id) || Has(sparse[..n], id)
    {
      assert sparse[..n + 1][..n] == sparse[..n];
      assert !Has(sparse[..n], sparse[n].id);
      if sparse[n].id !in known {
        all := all + [sparse[n]];
      }
      HasAppend(sparse, n);
      known := known + {sparse[n].id};
    }
    assert sparse[..|sparse|] == sparse;
  }

  lemma {:induction false} HasAppend(hits: seq<SearchResult>, n: nat)
    requires n < |hits|
    ensures forall id :: Has(hits[..n + 1], id) <==> Has(hits[..n], id) || id == hits[n].id
  {
    forall id ensures Has(hits[..n + 1], id) <==> Has(hits[..n], id) || id == hits[n].id {
      if i :| 0 <= i < n && hits[..n][i].id == id {
        assert hits[..n + 1][i].id == id;
      }
      assert hits[..n + 1][n] == hits[n];
    }
  }

  /** A hit as fetched from one list, with another score. */
  ghost predicate IsHitOf(c: SearchResult, hits: seq<SearchResult>) {
    exists h :: h in hits && h.id == c.id && c == h.(score := c.score)
  }

  /** The one-based position of an id in a list, or one past what was fetched if it is not there. */
  ghost predicate HasRank(hits: seq<SearchResult>, id: ChunkId, fetched: nat, rank: nat) {
    if forall h | h in hits :: h.id != id then rank == fetched + 1
    else 1 <= rank <= |hits| && hits[rank - 1].id == id
  }

  /** How many hits of each list are fetched for the best k. */
  ghost function FetchedFor(k: nat): nat {
    if 2 * k <= 100 then 2 * k else 100
  }

  /**
   * Falls back to the dense ranking without a sparse query; otherwise fetches twice as many of each, up to
   * a hundred, and fuses: every hit returned is one of the dense list or, if it is not there, of the sparse
   * one, and its score is the sum of 1 / (60 + rank) over both lists.
   */
  method SearchHybrid(dense: Ranking, sparse: Option<Ranking>, topK: nat) returns (r: seq<SearchResult>)
    requires IsRanking(dense) && (sparse.Some? ==> IsRanking(sparse.value))
    ensures sparse.None? ==> r == dense(topK)
    ensures sparse.Some? ==> var k := FetchedFor(topK); r == Fused(dense(k), sparse.value(k), k + 1, topK)
    ensures sparse.Some? ==> var k := FetchedFor(topK); var d, s := dense(k), sparse.value(k); forall c | c in r ::
      && (if exists h :: h in d && h.id == c.id then IsHitOf(c, d) else IsHitOf(c, s))
      && forall a, b | HasRank(d, c.id, k, a) && HasRank(s, c.id, k, b) ::
        c.score == 1.0 / (60 + a) as real + 1.0 / (60 + b) as real
  {
    if sparse.None? {
      return dense(topK);
    }
    hide FusedScore, Union, Rank, OnlyIn, IsHitOf, HasRank;
    var fetch := Min(topK * 2, FETCH_LIMIT);
    var denseHits, sparseHits := dense(fetch), sparse.value(fetch);
    var denseRanks := RankMap(denseHits);
    var sparseRanks := RankMap(sparseHits);
    var all := CollectAll(denseHits, sparseHits);
    var missing := fetch + 1;
    var scored := [];
    for n := 0 to |all|
      invariant |scored| == n && forall i | 0 <= i < n ::
        scored[i] == all[i].(score := FusedScore(denseHits, sparseHits, missing, all[i].id))
    {
      var d, s := RankFrom(denseRanks, all[n].id, missing), RankFrom(sparseRanks, all[n].id, missing);
      scored := scored + [all[n].(score := Reciprocal(d) + Reciprocal(s))];
    }
    assert scored == Rescored(all, denseHits, sparseHits, missing);
    r := FirstOf(ByScore(scored), topK);
    FusedHits(denseHits, sparseHits, fetch, topK);
  }

  lemma {:induction false} HasRankIs(hits: seq<SearchResult>, id: ChunkId, fetched: nat, rank: nat)
    requires DistinctIds(hits) && |hits| <= fetched && HasRank(hits, id, fetched, rank)
    ensures rank == Rank(hits, id, fetched + 1)
  {
    RankFacts(hits, id, fetched + 1);
    var own := Rank(hits, id, fetched + 1);
    if own <= fetched {
      assert hits[own - 1] in hits;
    } else {
      HasMember(hits, id);
    }
  }

  /** Where a fused hit comes from, and the score it has. */
  lemma {:induction false} FusedHits(dense: seq<SearchResult>, sparse: seq<SearchResult>, fetched: nat, topK: nat)
    requires DistinctIds(dense) && DistinctIds(sparse) && |dense| <= fetched && |sparse| <= fetched
    ensures forall c | c in Fused(dense, sparse, fetched + 1, topK) ::
      && (if exists h :: h in dense && h.id == c.id then IsHitOf(c, dense) else IsHitOf(c, sparse))
      && forall a, b | HasRank(dense, c.id, fetched, a) && HasRank(sparse, c.id, fetched, b) ::
        c.score == 1.0 / (60 + a) as real + 1.0 / (60 + b) as real
  {
    hide Union, FusedScore, HasRank, IsHitOf, DistinctIds;
    var missing := fetched + 1;
    var all, scored := Union(dense, sparse), Rescored(Union(dense, sparse), dense, sparse, missing);
    ByScoreFacts(scored);
    forall c | c in Fused(dense, sparse, missing, topK)
      ensures if exists h :: h in dense && h.id == c.id then IsHitOf(c, dense) else IsHitOf(c, sparse)
      ensures forall a, b | HasRank(dense, c.id, fetched, a) && HasRank(sparse, c.id, fetched, b) ::
        c.score == 1.0 / (60 + a) as real + 1.0 / (60 + b) as real
    {
      assert c in ByScore(scored);
      var i :| 0 <= i < |scored| && scored[i] == c;
      UnionHit(dense, sparse, i, c);
      forall a, b | HasRank(dense, c.id, fetched, a) && HasRank(sparse, c.id, fetched, b)
        ensures c.score == 1.0 / (60 + a) as real + 1.0 / (60 + b) as real
      {
        ScoreOfRanks(dense, sparse, fetched, c.id, a, b);
      }
    }
  }

  lemma {:induction false} ScoreOfRanks(dense: seq<SearchResult>, sparse: seq<SearchResult>, fetched: nat, id: ChunkId,
      a: nat, b: nat)
    requires DistinctIds(dense) && DistinctIds(sparse) && |dense| <= fetched && |sparse| <= fetched
    requires HasRank(dense, id, fetched, a) && HasRank(sparse, id, fetched, b)
    ensures FusedScore(dense, sparse, fetched + 1, id) == 1.0 / (60 + a) as real + 1.0 / (60 + b) as real
  {
    HasRankIs(dense, id, fetched, a);
    HasRankIs(sparse, id, fetched, b);
  }

  lemma {:induction false} UnionHit(dense: seq<SearchResult>, sparse: seq<SearchResult>, i: nat, c: SearchResult)
    requires DistinctIds(dense) && DistinctIds(sparse) && i < |Union(dense, sparse)|
    requires c == Union(dense, sparse)[i].(score := c.score)
    ensures if exists h :: h in dense && h.id == c.id then IsHitOf(c, dense) else IsHitOf(c, sparse)
  {
    var x, only := Union(dense, sparse)[i], OnlyIn(sparse, dense);
    OnlyInFacts(sparse, dense);
    HasMember(dense, c.id);
    if i >= |dense| {
      assert x == only[i - |dense|] && x in only;
    } else {
      assert x == dense[i] && x in dense;
    }
  }

  // ---- What fusion guarantees ----

  lemma {:induction false} OnlyInFacts(hits: seq<SearchResult>, other: seq<SearchResult>)
    requires DistinctIds(hits)
    ensures DistinctIds(OnlyIn(hits, other))
    ensures forall c :: c in OnlyIn(hits, other) <==> c in hits && !Has(other, c.id)
  {
    if hits != [] {
      var front, last := hits[..|hits| - 1], hits[|hits| - 1];
      OnlyInFacts(front, other);
      assert hits == front + [last];
      forall i | 0 <= i < |OnlyIn(front, other)| ensures OnlyIn(front, other)[i].id != last.id {
        assert OnlyIn(front, other)[i] in front;
      }
    }
  }

  lemma {:induction false} HasMember(hits: seq<SearchResult>, id: ChunkId)
    ensures Has(hits, id) <==> exists c :: c in hits && c.id == id
  {
    if i :| 0 <= i < |hits| && hits[i].id == id {
      assert hits[i] in hits;
    }
  }

  /** An id is in the union if it is in either list. */
  lemma {:induction false} UnionHas(dense: seq<SearchResult>, sparse: seq<SearchResult>, id: ChunkId)
    requires DistinctIds(sparse)
    ensures Has(Union(dense, sparse), id) <==> Has(dense, id) || Has(sparse, id)
  {
    hide Has, DistinctIds, OnlyIn;
    var all := Union(dense, sparse);
    OnlyInFacts(sparse, dense);
    HasMember(dense, id);
    HasMember(sparse, id);
    HasMember(all, id);
    assert forall c :: c in all <==> c in dense || c in OnlyIn(sparse, dense);
  }

  lemma {:induction false} UnionDistinct(dense: seq<SearchResult>, sparse: seq<SearchResult>)
    requires DistinctIds(dense) && DistinctIds(sparse)
    ensures DistinctIds(Union(dense, sparse))
  {
    hide OnlyIn;
    var only, all := OnlyIn(sparse, dense), Union(dense, sparse);
    OnlyInFacts(sparse, dense);
    forall i, j | 0 <= i < |dense| && 0 <= j < |only| ensures dense[i].id != only[j].id {
      assert only[j] in only;
    }
  }

  /** The union holds every id of either list, once. */
  lemma {:induction false} UnionFacts(dense: seq<SearchResult>, sparse: seq<SearchResult>)
    requires DistinctIds(dense) && DistinctIds(sparse)
    ensures DistinctIds(Union(dense, sparse))
    ensures forall id :: Has(Union(dense, sparse), id) <==> Has(dense, id) || Has(sparse, id)
  {
    UnionDistinct(dense, sparse);
    forall id ensures Has(Union(dense, sparse), id) <==> Has(dense, id) || Has(sparse, id) {
      UnionHas(dense, sparse, id);
    }
  }

  lemma {:induction false} ReciprocalFalls(a: nat, b: nat)
    requires a < b
    ensures Reciprocal(a) > Reciprocal(b)
  {
    var x, y := (RRF_K + a) as real, (RRF_K + b) as real;
    assert 1.0 / x - 1.0 / y == (y - x) / (x * y);
  }

  /** Every fused score lies above zero and at most at 2/61, reached only by the top of both lists. */
  lemma {:induction false} FusedScoreRange(dense: seq<SearchResult>, sparse: seq<SearchResult>, missing: nat,
      id: ChunkId)
    requires missing > |dense| && missing > |sparse|
    ensures 0.0 < FusedScore(dense, sparse, missing, id) <= 2.0 / 61.0
    ensures FusedScore(dense, sparse, missing, id) == 2.0 / 61.0
       <==> Rank(dense, id, missing) == 1 && Rank(sparse, id, missing) == 1
  {
    var d, s := Rank(dense, id, missing), Rank(sparse, id, missing);
    RankFacts(dense, id, missing);
    RankFacts(sparse, id, missing);
    assert Reciprocal(1) == 1.0 / 61.0;
    if d > 1 { ReciprocalFalls(1, d); }
    if s > 1 { ReciprocalFalls(1, s); }
  }

  /** A chunk ranked no worse in both lists and better in one scores strictly more. */
  lemma {:induction false} BetterRankedScoresMore(dense: seq<SearchResult>, sparse: seq<SearchResult>, missing: nat,
      a: ChunkId, b: ChunkId)
    requires Rank(dense, a, missing) <= Rank(dense, b, missing) && Rank(sparse, a, missing) <= Rank(sparse, b, missing)
    requires Rank(dense, a, missing) < Rank(dense, b, missing) || Rank(sparse, a, missing) < Rank(sparse, b, missing)
    ensures FusedScore(dense, sparse, missing, a) > FusedScore(dense, sparse, missing, b)
  {
    if Rank(dense, a, missing) < Rank(dense, b, missing) {
      ReciprocalFalls(Rank(dense, a, missing), Rank(dense, b, missing));
    }
    if Rank(sparse, a, missing) < Rank(sparse, b, missing) {
      ReciprocalFalls(Rank(sparse, a, missing), Rank(sparse, b, missing));
    }
  }

  lemma {:induction false} SortKeepsIds(hits: seq<SearchResult>)
    requires DistinctIds(hits)
    ensures DistinctIds(ByScore(hits))
  {
    assert NoDuplicates(hits);
    SortByDistinct(hits, Falling);
    ByScoreFacts(hits);
    var sorted := ByScore(hits);
    forall i, j | 0 <= i < j < |sorted| ensures sorted[i].id != sorted[j].id {
      assert sorted[i] in hits && sorted[j] in hits && sorted[i] != sorted[j];
    }
  }

  /** A cut of a sorted list keeps its best. */
  lemma {:induction false} CutKeepsBest(sorted: seq<SearchResult>, n: nat, left: SearchResult)
    requires Descending(sorted) && left in sorted && !Has(FirstOf(sorted, n), left.id)
    ensures forall c | c in FirstOf(sorted, n) :: c.score >= left.score
  {
    var r := FirstOf(sorted, n);
    assert forall i | 0 <= i < |r| :: sorted[i] == r[i] && sorted[i].id != left.id;
    var j :| 0 <= j < |sorted| && sorted[j] == left;
    assert j >= |r|;
  }

  /** The rescored union: each id of either list once, with its fused score. */
  lemma {:induction false} RescoredFacts(dense: seq<SearchResult>, sparse: seq<SearchResult>, missing: nat)
    requires DistinctIds(dense) && DistinctIds(sparse)
    ensures var scored := Rescored(Union(dense, sparse), dense, sparse, missing);
      && DistinctIds(scored)
      && (forall c | c in scored ::
          c.score == FusedScore(dense, sparse, missing, c.id) && (Has(dense, c.id) || Has(sparse, c.id)))
      && forall id :: Has(dense, id) || Has(sparse, id) ==> Has(scored, id)
  {
    var all := Union(dense, sparse);
    var scored := Rescored(all, dense, sparse, missing);
    UnionFacts(dense, sparse);
    forall c | c in scored ensures c.score == FusedScore(dense, sparse, missing, c.id) && Has(all, c.id) {
      var i :| 0 <= i < |scored| && scored[i] == c;
      assert all[i].id == c.id;
    }
    forall id | Has(all, id) ensures Has(scored, id) {
      var i :| 0 <= i < |all| && all[i].id == id;
      assert scored[i].id == id;
    }
  }

  /**
   * Fusion returns min(topK, size of the union) distinct chunks, best first, each with its fused score,
   * and no chunk it leaves out scores more than one it returns.
   */
  lemma {:induction false} FusionFacts(dense: seq<SearchResult>, sparse: seq<SearchResult>, missing: nat, topK: nat)
    requires DistinctIds(dense) && DistinctIds(sparse)
    ensures var r := Fused(dense, sparse, missing, topK);
      && |r| == Min(topK, |Union(dense, sparse)|) && DistinctIds(r) && Descending(r)
      && (forall c | c in r ::
          c.score == FusedScore(dense, sparse, missing, c.id) && (Has(dense, c.id) || Has(sparse, c.id)))
      && forall id | (Has(dense, id) || Has(sparse, id)) && !Has(r, id) :: forall c | c in r ::
        c.score >= FusedScore(dense, sparse, missing, id)
  {
    hide FusedScore, Union;
    var scored := Rescored(Union(dense, sparse), dense, sparse, missing);
    var sorted, r := ByScore(scored), Fused(dense, sparse, missing, topK);
    RescoredFacts(dense, sparse, missing);
    ByScoreFacts(scored);
    SortKeepsIds(scored);
    forall id | (Has(dense, id) || Has(sparse, id)) && !Has(r, id)
      ensures forall c | c in r :: c.score >= FusedScore(dense, sparse, missing, id)
    {
      var i :| 0 <= i < |scored| && scored[i].id == id;
      assert scored[i] in scored;
      CutKeepsBest(sorted, topK, scored[i]);
    }
  }

  /**
   * In the result, a chunk ranked no worse in both lists and better in one stands before the other, which
   * never appears without it.
   */
  lemma {:induction false} BetterRankedComesFirst(dense: seq<SearchResult>, sparse: seq<SearchResult>, missing: nat,
      topK: nat, a: ChunkId, j: nat)
    requires DistinctIds(dense) && DistinctIds(sparse) && (Has(dense, a) || Has(sparse, a))
    requires j < |Fused(dense, sparse, missing, topK)|
    requires var b := Fused(dense, sparse, missing, topK)[j].id;
      && Rank(dense, a, missing) <= Rank(dense, b, missing) && Rank(sparse, a, missing) <= Rank(sparse, b, missing)
      && (Rank(dense, a, missing) < Rank(dense, b, missing) || Rank(sparse, a, missing) < Rank(sparse, b, missing))
    ensures exists i :: 0 <= i < j && Fused(dense, sparse, missing, topK)[i].id == a
  {
    var r := Fused(dense, sparse, missing, topK);
    FusionFacts(dense, sparse, missing, topK);
    BetterRankedScoresMore(dense, sparse, missing, a, r[j].id);
    assert r[j] in r;
    var i :| 0 <= i < |r| && r[i].id == a;
    assert r[i] in r;
  }
}
