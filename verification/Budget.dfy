/**
 * Token budgeting for a prompt: chunks from the highest score down, history from the newest turn back,
 * each taken when it still fits its share.
 */
module Budget {
  import opened Support

  /** A selection: which positions are taken. */
  type Picks = seq<bool>

  function Cost(costs: seq<nat>, picks: Picks): nat
    requires |picks| == |costs|
  {
    if costs == [] then 0 else (if picks[0] then costs[0] else 0) + Cost(costs[1..], picks[1..])
  }

  /** Takes each item, first to last, that still fits. */
  function Greedy(costs: seq<nat>, budget: nat): (picks: Picks)
    ensures |picks| == |costs| && Cost(costs, picks) <= budget
  {
    if costs == [] then []
    else if costs[0] <= budget then [true] + Greedy(costs[1..], budget - costs[0])
    else [false] + Greedy(costs[1..], budget)
  }

  /** p takes the first item on which the two selections differ. */
  ghost predicate Precedes(p: Picks, q: Picks)
    requires |p| == |q|
  {
    exists i :: 0 <= i < |p| && p[i] && !q[i] && forall j | 0 <= j < i :: p[j] == q[j]
  }

  lemma {:induction false} PrecedesAfter(b: bool, p: Picks, q: Picks)
    requires |p| == |q| && Precedes(p, q)
    ensures Precedes([b] + p, [b] + q)
  {
    var i :| 0 <= i < |p| && p[i] && !q[i] && forall j | 0 <= j < i :: p[j] == q[j];
    assert ([b] + p)[i + 1] && !([b] + q)[i + 1];
  }

  /** The greedy selection is the lexicographically greatest one that fits. */
  lemma {:induction false} GreedyIsGreatest(costs: seq<nat>, budget: nat, other: Picks)
    requires |other| == |costs| && Cost(costs, other) <= budget
    ensures other == Greedy(costs, budget) || Precedes(Greedy(costs, budget), other)
  {
    if costs != [] {
      var fits := costs[0] <= budget;
      if fits == other[0] {
        var left := if fits then budget - costs[0] else budget;
        GreedyIsGreatest(costs[1..], left, other[1..]);
        assert other == [fits] + other[1..];
        if other[1..] != Greedy(costs[1..], left) {
          PrecedesAfter(fits, Greedy(costs[1..], left), other[1..]);
        }
      } else {
        assert Greedy(costs, budget)[0] && !other[0];
      }
    }
  }

  lemma {:induction false} PrecedesOneWay(p: Picks, q: Picks)
    requires |p| == |q| && Precedes(p, q)
    ensures p != q && !Precedes(q, p)
  {
  }

  /** So it is the only selection that fits and comes first among all that fit. */
  lemma {:induction false} GreedyIsTheOnlyGreatest(costs: seq<nat>, budget: nat, picks: Picks)
    requires |picks| == |costs| && Cost(costs, picks) <= budget
    requires forall other: Picks | |other| == |costs| && Cost(costs, other) <= budget ::
      other == picks || Precedes(picks, other)
    ensures picks == Greedy(costs, budget)
  {
    GreedyIsGreatest(costs, budget, picks);
    if picks != Greedy(costs, budget) {
      PrecedesOneWay(Greedy(costs, budget), picks);
    }
  }

  /** An item left out no longer fits: with it the selection would exceed the budget. */
  lemma {:induction false} LeftOutDoesNotFit(costs: seq<nat>, budget: nat, i: nat)
    requires i < |costs| && !Greedy(costs, budget)[i]
    ensures Cost(costs, Greedy(costs, budget)) + costs[i] > budget
  {
    var picks := Greedy(costs, budget);
    var left := if picks[0] then budget - costs[0] else budget;
    assert picks[1..] == Greedy(costs[1..], left);
    if i > 0 {
      LeftOutDoesNotFit(costs[1..], left, i - 1);
    }
  }

  // ---- Index lists ----

  /** The positions taken, ascending, counted from an offset. */
  function Indices(picks: Picks, offset: nat): seq<nat> {
    if picks == [] then [] else (if picks[0] then [offset] else []) + Indices(picks[1..], offset + 1)
  }

  /** Exactly the positions taken, each once and in order. */
  lemma {:induction false} IndicesExact(picks: Picks, offset: nat)
    ensures forall k: nat :: k in Indices(picks, offset) <==> offset <= k < offset + |picks| && picks[k - offset]
    ensures forall i, j | 0 <= i < j < |Indices(picks, offset)| :: Indices(picks, offset)[i] < Indices(picks, offset)[j]
  {
    if picks != [] {
      var rest := Indices(picks[1..], offset + 1);
      IndicesExact(picks[1..], offset + 1);
      assert forall j | 0 <= j < |rest| :: rest[j] in rest;
      forall k: nat ensures k in Indices(picks, offset) <==> offset <= k < offset + |picks| && picks[k - offset] {
        if k > offset {
          assert k in rest <==> k < offset + |picks| && picks[1..][k - offset - 1];
        } else {
          assert k !in rest;
        }
      }
    }
  }

  lemma {:induction false} IndicesAppend(picks: Picks, b: bool, offset: nat)
    ensures Indices(picks + [b], offset) == Indices(picks, offset) + if b then [offset + |picks|] else []
  {
    if picks == [] {
      assert [b][1..] == [];
    } else {
      var more, last := picks + [b], if b then [offset + |picks|] else [];
      assert more[1..] == picks[1..] + [b] && more[0] == picks[0];
      IndicesAppend(picks[1..], b, offset + 1);
      Associate(if picks[0] then [offset] else [], Indices(picks[1..], offset + 1), last);
    }
  }

  function Reverse<T>(s: seq<T>): (r: seq<T>)
    ensures |r| == |s| && forall i | 0 <= i < |s| :: r[i] == s[|s| - 1 - i]
  {
    if s == [] then [] else Reverse(s[1..]) + [s[0]]
  }

  lemma {:induction false} ReverseTwice<T>(s: seq<T>)
    ensures Reverse(Reverse(s)) == s
  {
  }

  lemma {:induction false} ReverseAppend<T>(s: seq<T>, x: T)
    ensures Reverse(s + [x]) == [x] + Reverse(s)
  {
  }

  /** Newest first: greedy on the reversed history, put back in order. */
  function GreedyNewest(costs: seq<nat>, budget: nat): (picks: Picks)
    ensures |picks| == |costs|
  {
    Reverse(Greedy(Reverse(costs), budget))
  }

  lemma {:induction false} CostSplits(a: seq<nat>, p: Picks, b: seq<nat>, q: Picks)
    requires |p| == |a| && |q| == |b|
    ensures Cost(a + b, p + q) == Cost(a, p) + Cost(b, q)
  {
    if a == [] {
      assert a + b == b && p + q == q;
    } else {
      assert (a + b)[1..] == a[1..] + b && (p + q)[1..] == p[1..] + q;
      CostSplits(a[1..], p[1..], b, q);
    }
  }

  lemma {:induction false} CostReversed(costs: seq<nat>, picks: Picks)
    requires |picks| == |costs|
    ensures Cost(Reverse(costs), Reverse(picks)) == Cost(costs, picks)
  {
    if costs != [] {
      CostReversed(costs[1..], picks[1..]);
      CostSplits(Reverse(costs[1..]), Reverse(picks[1..]), [costs[0]], [picks[0]]);
      assert Cost([costs[0]], [picks[0]]) == if picks[0] then costs[0] else 0;
    }
  }

  /** What the history selection costs is what its mirror image costs. */
  lemma {:induction false} GreedyNewestCost(costs: seq<nat>, budget: nat)
    ensures Cost(costs, GreedyNewest(costs, budget)) == Cost(Reverse(costs), Greedy(Reverse(costs), budget))
    ensures Cost(costs, GreedyNewest(costs, budget)) <= budget
  {
    hide Greedy, Cost, Reverse;
    var back := Reverse(costs);
    CostReversed(back, Greedy(back, budget));
    ReverseTwice(costs);
  }

  /** The history selection is the greatest that fits, comparing from the newest turn back. */
  lemma {:induction false} GreedyNewestIsGreatest(costs: seq<nat>, budget: nat, other: Picks)
    requires |other| == |costs| && Cost(costs, other) <= budget
    ensures other == GreedyNewest(costs, budget) || Precedes(Reverse(GreedyNewest(costs, budget)), Reverse(other))
  {
    hide Greedy, Cost, Reverse, Precedes;
    var back, picks := Reverse(costs), Greedy(Reverse(costs), budget);
    CostReversed(costs, other);
    GreedyIsGreatest(back, budget, Reverse(other));
    ReverseTwice(other);
    ReverseTwice(picks);
  }

  /** A turn left out no longer fits. */
  lemma {:induction false} LeftOutOfHistory(costs: seq<nat>, budget: nat, i: nat)
    requires i < |costs| && !GreedyNewest(costs, budget)[i]
    ensures Cost(costs, GreedyNewest(costs, budget)) + costs[i] > budget
  {
    hide Greedy, Cost, Reverse;
    var back, k := Reverse(costs), |costs| - 1 - i;
    GreedyNewestCost(costs, budget);
    assert back[k] == costs[i] && !Greedy(back, budget)[k];
    LeftOutDoesNotFit(back, budget, k);
  }

  // ---- The allocator ----

  /** One more item decided. */
  lemma {:induction false} GreedyStep(costs: seq<nat>, i: nat, left: nat, picks: Picks)
    requires i < |costs|
    ensures var fits := costs[i] <= left;
      picks + Greedy(costs[i..], left)
           == picks + [fits] + Greedy(costs[i + 1..], if fits then left - costs[i] else left)
  {
    assert costs[i..][1..] == costs[i + 1..];
    var fits := costs[i] <= left;
    Associate(picks, [fits], Greedy(costs[i + 1..], if fits then left - costs[i] else left));
  }

  /** The loop over chunks. */
  method SelectChunks(costs: seq<nat>, budget: nat) returns (selected: seq<nat>)
    ensures selected == Indices(Greedy(costs, budget), 0)
  {
    hide Greedy, Indices;
    selected := [];
    var used := 0;
    ghost var picks: Picks := [];
    NoIndices(0);
    assert costs[0..] == costs;
    for i := 0 to |costs|
      invariant |picks| == i && used <= budget && selected == Indices(picks, 0)
      invariant Greedy(costs, budget) == picks + Greedy(costs[i..], budget - used)
    {
      ghost var fits := used + costs[i] <= budget;
      GreedyStep(costs, i, budget - used, picks);
      IndicesAppend(picks, fits, 0);
      picks := picks + [fits];
      if used + costs[i] <= budget {
        selected := selected + [i];
        used := used + costs[i];
      }
    }
    assert picks + Greedy(costs[|costs|..], budget - used) == picks;
  }

  lemma {:induction false} NoIndices(offset: nat)
    ensures Indices([], offset) == []
  {
  }

  lemma {:induction false} IndicesPrepend(picks: Picks, b: bool, offset: nat)
    ensures Indices([b] + picks, offset) == (if b then [offset] else []) + Indices(picks, offset + 1)
  {
    assert ([b] + picks)[1..] == picks;
  }

  /** The loop over history, from the newest turn back; the list is reversed at the end. */
  method SelectHistory(costs: seq<nat>, budget: nat) returns (selected: seq<nat>)
    ensures selected == Indices(GreedyNewest(costs, budget), 0)
  {
    hide Greedy, Indices, Reverse;
    selected := [];
    var used := 0;
    ghost var back := Reverse(costs);
    ghost var picks: Picks := [];
    NoIndices(|costs|);
    assert back[0..] == back;
    var i := |costs|;
    while i > 0
      invariant 0 <= i <= |costs| && |picks| == |costs| - i && used <= budget
      invariant Reverse(selected) == Indices(Reverse(picks), i)
      invariant Greedy(back, budget) == picks + Greedy(back[|costs| - i..], budget - used)
    {
      GreedyStep(back, |costs| - i, budget - used, picks);
      i := i - 1;
      ghost var fits := used + costs[i] <= budget;
      ReverseAppend(picks, fits);
      ReverseAppend(selected, i);
      IndicesPrepend(Reverse(picks), fits, i);
      picks := picks + [fits];
      if used + costs[i] <= budget {
        selected := selected + [i];
        used := used + costs[i];
      }
    }
    assert picks + Greedy(back[|costs|..], budget - used) == picks;
    ReverseTwice(selected);
    selected := Reverse(selected);
  }

  datatype BudgetError = RatioOutOfRange

  /** The chunks' share of what is left, rounded down to whole tokens. */
  function ChunkShare(remaining: nat, ratio: real): (share: nat)
    requires 0.0 <= ratio <= 1.0
    ensures share <= remaining && share as real <= remaining as real * ratio < (share + 1) as real
  {
    ShareFits(remaining, ratio);
    (remaining as real * ratio).Floor
  }

  lemma {:induction false} ShareFits(remaining: nat, ratio: real)
    requires 0.0 <= ratio <= 1.0
    ensures 0 <= (remaining as real * ratio).Floor <= remaining
  {
    assert 0.0 <= remaining as real * ratio <= remaining as real * 1.0;
  }

  /**
   * Splits what the fixed tokens leave by `ratio` and fills both shares. The selections are the greedy
   * ones; when the fixed tokens fit, everything together does too, and otherwise only free items are chosen.
   */
  method AllocateTokenBudget(contextWindow: nat, systemTokens: nat, questionTokens: nat, chunks: seq<(real, nat)>,
      history: seq<nat>, reserve: nat, ratio: real)
    returns (r: Result<(seq<nat>, seq<nat>), BudgetError>)
    ensures r.Err? <==> !(0.0 <= ratio <= 1.0)
    ensures r.Ok? ==>
      var fixed := systemTokens + questionTokens + reserve;
      var remaining := if fixed <= contextWindow then contextWindow - fixed else 0;
      var costs := seq(|chunks|, i requires 0 <= i < |chunks| => chunks[i].1);
      var picked, kept := Greedy(costs, ChunkShare(remaining, ratio)),
                          GreedyNewest(history, remaining - ChunkShare(remaining, ratio));
      && r.value == (Indices(picked, 0), Indices(kept, 0))
      && (fixed <= contextWindow ==> fixed + Cost(costs, picked) + Cost(history, kept) <= contextWindow)
      && (fixed > contextWindow ==> Cost(costs, picked) == 0 && Cost(history, kept) == 0)
  {
    if !(0.0 <= ratio <= 1.0) {
      return Err(RatioOutOfRange);
    }
    var fixed := systemTokens + questionTokens + reserve;
    var remaining := Max(0, contextWindow - fixed);
    var chunkBudget := ChunkShare(remaining, ratio);
    var historyBudget := remaining - chunkBudget;
    var costs := seq(|chunks|, i requires 0 <= i < |chunks| => chunks[i].1);
    var selectedChunks := SelectChunks(costs, chunkBudget);
    var selectedHistory := SelectHistory(history, historyBudget);
    GreedyNewestCost(history, historyBudget);
    return Ok((selectedChunks, selectedHistory));
  }
}
