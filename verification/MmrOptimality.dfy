/** What a greedy run guarantees: determinism, caps, maximal size, and optimality for lambda = 1. */
module MmrOptimality {
  import opened Basics
  import opened Sums
  import opened Vectors
  import opened Mmr

  /** A set of candidates that respects the cap in every group. */
  ghost predicate Admissible(p: Problem, T: set<nat>)
    requires p.Valid()
  {
    && Within(T, |p.relevance|)
    && (p.caps.Some? ==> forall g :: |InGroup(T, p.caps.value.groups, g)| <= p.Ceiling())
  }

  lemma {:induction false} MaxSimMeaning(unit: seq<Vec>, i: nat, picks: seq<nat>)
    requires Rectangular(unit) && i < |unit|
    requires forall j | 0 <= j < |picks| :: picks[j] < |unit|
    ensures 0.0 <= MaxSim(unit, i, picks)
    ensures forall j | 0 <= j < |picks| :: Dot(unit[i], unit[picks[j]]) <= MaxSim(unit, i, picks)
    ensures MaxSim(unit, i, picks) == 0.0
            || exists j | 0 <= j < |picks| :: Dot(unit[i], unit[picks[j]]) == MaxSim(unit, i, picks)
  {
    if picks != [] {
      MaxSimMeaning(unit, i, picks[..|picks| - 1]);
    }
  }

  lemma PickWasOpen(p: Problem, k: int, chosen: seq<nat>, t: nat)
    requires p.Valid() && IsGreedyRun(p, k, chosen) && t < |chosen|
    ensures Open(p, chosen[..t], chosen[t])
  {
    assert IsFirstBest(p, chosen[..t], chosen[t]);
  }

  lemma RunDistinct(p: Problem, k: int, chosen: seq<nat>)
    requires p.Valid() && IsGreedyRun(p, k, chosen)
    ensures Distinct(chosen)
  {
    forall i, j | 0 <= i < j < |chosen|
      ensures chosen[i] != chosen[j]
    {
      PickWasOpen(p, k, chosen, j);
      assert chosen[i] == chosen[..j][i];
    }
  }

  lemma {:induction false} PrefixAdmissible(p: Problem, k: int, chosen: seq<nat>, t: nat)
    requires p.Valid() && IsGreedyRun(p, k, chosen) && t <= |chosen|
    ensures Admissible(p, Elems(chosen[..t]))
  {
    if t == 0 {
      if p.caps.Some? {
        forall g
          ensures |InGroup(Elems(chosen[..0]), p.caps.value.groups, g)| <= p.Ceiling()
        {
          assert InGroup(Elems(chosen[..0]), p.caps.value.groups, g) == {};
        }
      }
    } else {
      PrefixAdmissible(p, k, chosen, t - 1);
      assert IsFirstBest(p, chosen[..t - 1], chosen[t - 1]);
      assert chosen[..t] == chosen[..t - 1] + [chosen[t - 1]];
      if p.caps.Some? {
        CountsAfter(p, chosen[..t - 1], chosen[t - 1]);
        forall g
          ensures |InGroup(Elems(chosen[..t]), p.caps.value.groups, g)| <= p.Ceiling()
        {
          assert GroupCount(p, chosen[..t], g) <= p.Ceiling();
        }
      }
    }
  }

  /** No group exceeds its cap. */
  lemma RunRespectsCaps(p: Problem, k: int, chosen: seq<nat>)
    requires p.Valid() && IsGreedyRun(p, k, chosen)
    ensures Admissible(p, Elems(chosen))
  {
    PrefixAdmissible(p, k, chosen, |chosen|);
    assert chosen[..|chosen|] == chosen;
  }

  lemma {:induction false} RunsAgree(p: Problem, k: int, a: seq<nat>, b: seq<nat>, t: nat)
    requires p.Valid() && IsGreedyRun(p, k, a) && IsGreedyRun(p, k, b)
    requires t <= |a| && t <= |b|
    ensures a[..t] == b[..t]
  {
    if t > 0 {
      RunsAgree(p, k, a, b, t - 1);
      assert IsFirstBest(p, a[..t - 1], a[t - 1]) && IsFirstBest(p, b[..t - 1], b[t - 1]);
      assert a[..t] == a[..t - 1] + [a[t - 1]];
      assert b[..t] == b[..t - 1] + [b[t - 1]];
    }
  }

  lemma RunNoLonger(p: Problem, k: int, a: seq<nat>, b: seq<nat>)
    requires p.Valid() && IsGreedyRun(p, k, a) && IsGreedyRun(p, k, b)
    ensures |b| <= |a|
  {
    if |a| < |b| {
      assert a[..|a|] == a;
      PickWasOpen(p, k, b, |a|);
      RunsAgree(p, k, a, b, |a|);
    }
  }

  /** The quadratic definition has exactly one run, so the loop computes it and nothing else. */
  lemma RunUnique(p: Problem, k: int, a: seq<nat>, b: seq<nat>)
    requires p.Valid() && IsGreedyRun(p, k, a) && IsGreedyRun(p, k, b)
    ensures a == b
  {
    RunNoLonger(p, k, a, b);
    RunNoLonger(p, k, b, a);
    RunsAgree(p, k, a, b, |a|);
    assert a[..|a|] == a && b[..|b|] == b;
  }

  /** A run that stops early has taken as many candidates as the caps allow. */
  lemma RunMaximal(p: Problem, k: int, chosen: seq<nat>, T: set<nat>)
    requires p.Valid() && IsGreedyRun(p, k, chosen) && |chosen| < k
    requires Admissible(p, T)
    ensures |T| <= |chosen|
  {
    RunDistinct(p, k, chosen);
    DistinctSize(chosen);
    RunRespectsCaps(p, k, chosen);
    var S := Elems(chosen);
    if p.caps.None? {
      forall i | i in T
        ensures i in S
      {
        assert !Open(p, chosen, i);
      }
      SubsetSize(T, S);
    } else {
      var groups := p.caps.value.groups;
      forall g
        ensures |InGroup(T, groups, g)| <= |InGroup(S, groups, g)|
      {
        if |InGroup(S, groups, g)| < p.Ceiling() {
          forall i | i in InGroup(T, groups, g)
            ensures i in InGroup(S, groups, g)
          {
            assert !Open(p, chosen, i);
          }
          SubsetSize(InGroup(T, groups, g), InGroup(S, groups, g));
        }
      }
      CompareByGroup(T, S, groups);
    }
  }

  // ---- lambda = 1: the picks have the greatest total relevance ----

  /** With lambda = 1 an open candidate never has more relevance than the pick. */
  lemma PickDominates(p: Problem, picks: seq<nat>, pick: nat, x: nat)
    requires p.Valid() && InPool(p, picks) && p.lambda == 1.0
    requires IsFirstBest(p, picks, pick) && Open(p, picks, x)
    ensures p.relevance[x] <= p.relevance[pick]
  {
    assert Value(p, picks, x) <= Value(p, picks, pick);
    assert Value(p, picks, x) == p.relevance[x];
    assert Value(p, picks, pick) == p.relevance[pick];
  }

  /** A member of T outside the picks that can be traded for the next pick. */
  lemma TradeFor(p: Problem, picks: seq<nat>, pick: nat, T: set<nat>) returns (x: nat)
    requires p.Valid() && InPool(p, picks) && Open(p, picks, pick)
    requires Admissible(p, T) && Elems(picks) <= T && pick !in T && |Elems(picks)| < |T|
    ensures x in T && x !in picks
    ensures Admissible(p, T - {x} + {pick})
  {
    var P := Elems(picks);
    if p.caps.Some? && |InGroup(T, p.caps.value.groups, p.caps.value.groups[pick])| == p.Ceiling() {
      var groups := p.caps.value.groups;
      var full, taken := InGroup(T, groups, groups[pick]), InGroup(P, groups, groups[pick]);
      assert GroupCount(p, picks, groups[pick]) < p.Ceiling();
      x := LargerHasExtra(full, taken);
      TradeInGroup(p, T, x, pick);
    } else {
      x := LargerHasExtra(T, P);
      if p.caps.Some? {
        forall g
          ensures |InGroup(T - {x} + {pick}, p.caps.value.groups, g)| <= p.Ceiling()
        {
          InGroupAdd(T - {x}, p.caps.value.groups, pick, g);
          InGroupMono(T - {x}, T, p.caps.value.groups, g);
        }
      }
    }
  }

  lemma TradeInGroup(p: Problem, T: set<nat>, x: nat, pick: nat)
    requires p.Valid() && p.caps.Some? && Admissible(p, T)
    requires x in T && pick !in T && pick < |p.relevance|
    requires p.caps.value.groups[x] == p.caps.value.groups[pick]
    ensures Admissible(p, T - {x} + {pick})
  {
    var groups := p.caps.value.groups;
    forall g
      ensures |InGroup(T - {x} + {pick}, groups, g)| <= p.Ceiling()
    {
      InGroupAdd(T - {x}, groups, pick, g);
      InGroupAdd(T - {x}, groups, x, g);
      assert T - {x} + {x} == T;
    }
  }

  /** A traded candidate was open, because T itself had room for it. */
  lemma TradedWasOpen(p: Problem, picks: seq<nat>, T: set<nat>, x: nat)
    requires p.Valid() && InPool(p, picks)
    requires Admissible(p, T) && Elems(picks) <= T && x in T && x !in picks
    ensures Open(p, picks, x)
  {
    if p.caps.Some? {
      var groups := p.caps.value.groups;
      var P := Elems(picks);
      InGroupAdd(P, groups, x, groups[x]);
      InGroupMono(P + {x}, T, groups, groups[x]);
    }
  }

  /** Exchange argument: any admissible set can absorb the first t picks without losing relevance. */
  lemma {:induction false} Exchange(p: Problem, k: int, chosen: seq<nat>, T: set<nat>, t: nat) returns (U: set<nat>)
    requires p.Valid() && IsGreedyRun(p, k, chosen) && p.lambda == 1.0
    requires Admissible(p, T) && |T| == |chosen| && t <= |chosen|
    ensures Admissible(p, U) && |U| == |T| && Elems(chosen[..t]) <= U
    ensures Total(p.relevance, T, |p.relevance|) <= Total(p.relevance, U, |p.relevance|)
  {
    if t == 0 {
      U := T;
    } else {
      U := Exchange(p, k, chosen, T, t - 1);
      var picks, pick := chosen[..t - 1], chosen[t - 1];
      assert IsFirstBest(p, picks, pick);
      assert chosen[..t] == picks + [pick];
      if pick !in U {
        RunDistinct(p, k, chosen);
        DistinctSize(picks);
        var x := TradeFor(p, picks, pick, U);
        TradedWasOpen(p, picks, U, x);
        PickDominates(p, picks, pick, x);
        TotalSwap(p.relevance, U, x, pick, |p.relevance|);
        assert |U - {x} + {pick}| == |U|;
        U := U - {x} + {pick};
      }
    }
  }

  /** With lambda = 1 the picks have maximum total relevance among all admissible sets of their size. */
  lemma LambdaOneOptimal(p: Problem, k: int, chosen: seq<nat>, T: set<nat>)
    requires p.Valid() && IsGreedyRun(p, k, chosen) && p.lambda == 1.0
    requires Admissible(p, T) && |T| == |chosen|
    ensures Total(p.relevance, T, |p.relevance|) <= Total(p.relevance, Elems(chosen), |p.relevance|)
  {
    var U := Exchange(p, k, chosen, T, |chosen|);
    assert chosen[..|chosen|] == chosen;
    RunDistinct(p, k, chosen);
    DistinctSize(chosen);
    SubsetSize(Elems(chosen), U);
  }
}
