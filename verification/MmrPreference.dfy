/** What the trade-off prefers: relevance against similarity to the earlier picks, stated on the vectors themselves
    (pipeline.py, `_mmr_order`). */
module MmrPreference {
  import opened Basics
  import opened Sums
  import opened Vectors
  import opened Mmr
  import opened MmrOptimality

  /** m is 0 or the greatest similarity of candidate i to an earlier pick, whichever is larger. */
  ghost predicate IsPenalty(unit: seq<Vec>, i: nat, picks: seq<nat>, m: real)
    requires Rectangular(unit) && i < |unit| && forall j | 0 <= j < |picks| :: picks[j] < |unit|
  {
    && m >= 0.0
    && (forall j | 0 <= j < |picks| :: Dot(unit[i], unit[picks[j]]) <= m)
    && (m == 0.0 || exists j :: 0 <= j < |picks| && Dot(unit[i], unit[picks[j]]) == m)
  }

  lemma PenaltyIsMaxSim(unit: seq<Vec>, i: nat, picks: seq<nat>, m: real)
    requires Rectangular(unit) && i < |unit| && forall j | 0 <= j < |picks| :: picks[j] < |unit|
    requires IsPenalty(unit, i, picks, m)
    ensures m == MaxSim(unit, i, picks)
  {
    MaxSimMeaning(unit, i, picks);
  }

  /** The moment of pick t: it was the first best of the open candidates. */
  lemma PickMoment(p: Problem, k: int, chosen: seq<nat>, t: nat)
    requires p.Valid() && IsGreedyRun(p, k, chosen) && t < |chosen|
    ensures InPool(p, chosen[..t]) && IsFirstBest(p, chosen[..t], chosen[t]) && chosen[t] < |p.relevance|
  {}

  /** The first pick is the most relevant open candidate, the earliest of equals. */
  lemma FirstPickMostRelevant(p: Problem, k: int, chosen: seq<nat>, j: nat)
    requires p.Valid() && IsGreedyRun(p, k, chosen) && |chosen| > 0 && Open(p, [], j)
    ensures chosen[0] < |p.relevance| && p.relevance[j] <= p.relevance[chosen[0]]
    ensures p.relevance[j] == p.relevance[chosen[0]] ==> chosen[0] <= j
  {
    PickMoment(p, k, chosen, 0);
    assert chosen[..0] == [];
  }

  /** At least as much ahead in relevance, weighted by lambda, as behind in novelty, weighted by the rest. */
  ghost predicate Prefers(lambda: real, r: real, m: real, r': real, m': real) {
    lambda * (r - r') >= (1.0 - lambda) * (m - m')
  }

  ghost predicate Ties(lambda: real, r: real, m: real, r': real, m': real) {
    lambda * (r - r') == (1.0 - lambda) * (m - m')
  }

  ghost predicate Weighs(v: real, lambda: real, r: real, m: real) {
    v == lambda * r - (1.0 - lambda) * m
  }

  /** A later pick is preferred to every other open candidate; the earliest of equals wins. */
  lemma PickIsPreferred(p: Problem, k: int, chosen: seq<nat>, t: nat, j: nat, m: real, m': real)
    requires p.Valid() && IsGreedyRun(p, k, chosen) && 0 < t < |chosen| && Open(p, chosen[..t], j)
    requires InPool(p, chosen[..t]) && chosen[t] < |p.relevance|
    requires IsPenalty(p.unit, chosen[t], chosen[..t], m) && IsPenalty(p.unit, j, chosen[..t], m')
    ensures Prefers(p.lambda, p.relevance[chosen[t]], m, p.relevance[j], m')
    ensures Ties(p.lambda, p.relevance[chosen[t]], m, p.relevance[j], m') ==> chosen[t] <= j
  {
    PickMoment(p, k, chosen, t);
    ValueWeighs(p, chosen[..t], chosen[t], m);
    ValueWeighs(p, chosen[..t], j, m');
    TradeOff(p.lambda, p.relevance[chosen[t]], m, p.relevance[j], m',
             Value(p, chosen[..t], chosen[t]), Value(p, chosen[..t], j));
  }

  lemma ValueWeighs(p: Problem, picks: seq<nat>, i: nat, m: real)
    requires p.Valid() && InPool(p, picks) && picks != [] && i < |p.relevance| && IsPenalty(p.unit, i, picks, m)
    ensures Weighs(Value(p, picks, i), p.lambda, p.relevance[i], m)
  {
    PenaltyIsMaxSim(p.unit, i, picks, m);
  }

  lemma TradeOff(lambda: real, r: real, m: real, r': real, m': real, v: real, v': real)
    requires Weighs(v, lambda, r, m) && Weighs(v', lambda, r', m')
    ensures v >= v' <==> Prefers(lambda, r, m, r', m')
    ensures v == v' <==> Ties(lambda, r, m, r', m')
  {
    assert v - v' == lambda * (r - r') - (1.0 - lambda) * (m - m');
  }

  /** Of two open candidates of equal relevance the one more similar to the earlier picks is never taken. */
  lemma DuplicateIsPassedOver(p: Problem, k: int, chosen: seq<nat>, t: nat, i: nat, j: nat, m: real, m': real)
    requires p.Valid() && IsGreedyRun(p, k, chosen) && 0 < t < |chosen| && p.lambda < 1.0
    requires Open(p, chosen[..t], i) && Open(p, chosen[..t], j) && p.relevance[i] == p.relevance[j]
    requires InPool(p, chosen[..t])
    requires IsPenalty(p.unit, i, chosen[..t], m) && IsPenalty(p.unit, j, chosen[..t], m') && m > m'
    ensures chosen[t] != i
  {
    if chosen[t] == i {
      PickIsPreferred(p, k, chosen, t, j, m, m');
      NoveltyDecides(p.lambda, p.relevance[i], m, m');
    }
  }

  lemma NoveltyDecides(lambda: real, r: real, m: real, m': real)
    requires lambda < 1.0 && m > m'
    ensures !Prefers(lambda, r, m, r, m')
  {
    var rest, gap := 1.0 - lambda, m - m';
    PositiveTimes(rest, gap);
    var lead := r - r;
    assert lambda * lead == 0.0;
    assert !(lambda * lead >= rest * gap);
  }

  lemma PositiveTimes(x: real, y: real)
    requires x > 0.0 && y > 0.0
    ensures x * y > 0.0
  {}

  /** Per group at most max(1, cap) picks, the cap being the one given. */
  lemma RunWithinMax(p: Problem, k: int, chosen: seq<nat>, g: int)
    requires p.Valid() && IsGreedyRun(p, k, chosen) && p.caps.Some?
    ensures |InGroup(Elems(chosen), p.caps.value.groups, g)| <= if p.caps.value.max < 1 then 1 else p.caps.value.max
  {
    RunRespectsCaps(p, k, chosen);
  }

  // ---- The configured trade-off on a duplicate ----

  /** The second candidate repeats the first; the third is less relevant and unrelated. */
  function DuplicateProblem(): (p: Problem)
    ensures p.Valid()
  {
    Problem([1.0, 0.9, 0.8], [[1.0, 0.0], [1.0, 0.0], [0.0, 1.0]], 0.8, None)
  }

  lemma DuplicateDots()
    ensures Dot([1.0, 0.0], [1.0, 0.0]) == 1.0 && Dot([0.0, 1.0], [1.0, 0.0]) == 0.0
  {
    assert [1.0, 0.0][..1] == [1.0] && [0.0, 1.0][..1] == [0.0];
    assert [1.0][..0] == [] && [0.0][..0] == [];
    assert Dot([1.0], [1.0]) == 1.0 && Dot([0.0], [1.0]) == 0.0;
  }

  /** With lambda 0.8 the unrelated candidate comes second, not the duplicate. */
  lemma DuplicateComesLast(chosen: seq<nat>)
    requires IsGreedyRun(DuplicateProblem(), 2, chosen)
    ensures chosen == [0, 2]
  {
    var p := DuplicateProblem();
    RunDistinct(p, 2, chosen);
    FirstTwo(chosen);
    FirstPickMostRelevant(p, 2, chosen, 0);
    assert chosen[0] == 0;
    assert chosen[..1] == [0];
    DuplicateDots();
    assert IsPenalty(p.unit, 1, [0], 1.0) by {
      assert Dot(p.unit[1], p.unit[[0][0]]) == 1.0;
    }
    assert IsPenalty(p.unit, 2, [0], 0.0);
    if chosen[1] == 1 {
      PickIsPreferred(p, 2, chosen, 1, 2, 1.0, 0.0);
    }
  }

  lemma FirstTwo(chosen: seq<nat>)
    requires IsGreedyRun(DuplicateProblem(), 2, chosen)
    ensures |chosen| == 2 && chosen[0] < 3 && chosen[1] < 3
  {
    var p := DuplicateProblem();
    assert |chosen| == 0 ==> Open(p, chosen, 0);
    assert |chosen| == 1 ==> Open(p, chosen, 0) || Open(p, chosen, 1);
  }
}
