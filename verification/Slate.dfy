/** Ranking a slate: pool, diversified core, exploration, backfill, interleave (pipeline.py, `rank_titles`). */
module Slate {
  import opened Basics
  import opened Sums
  import opened Sorting
  import opened Vectors
  import opened Mmr
  import opened MmrOptimality
  import opened Interleave
  import opened SlateFill

  const EXPLORATION_MIN_VOTE := 6.8
  const MIN_GENRE_CAP := 3

  /** Two fifths of the slate to the nearest integer, at least 3; two fifths of an integer is never a rounding tie. */
  function GenreCapFor(slateSize: int): (cap: int)
    ensures cap >= 3
    ensures cap == 3 ==> 2 * slateSize <= 17
    ensures cap > 3 ==> -2 <= 5 * cap - 2 * slateSize <= 2
  {
    var nearest := (2 * slateSize + 2) / 5;
    assert 5 * nearest <= 2 * slateSize + 2 < 5 * nearest + 5;
    Max(MIN_GENRE_CAP, nearest)
  }

  /** The pool in score order, with everything the stages look at. */
  datatype Candidates = Candidates(scores: seq<real>, unit: seq<Vec>, pool: Pool) {
    ghost predicate Valid() {
      && |unit| == |scores| == |pool.genres|
      && Rectangular(unit)
      && pool.Valid()
      && IsStableOrder(Negated(scores), pool.order)
    }
  }

  datatype Settings = Settings(slateSize: int, lambda: real, explorationSlots: int, cap: int) {
    /** Slots set aside for exploration, never the whole slate. */
    function Slots(): nat {
      Min(Max(explorationSlots, 0), Max(slateSize - 1, 0))
    }
  }

  // ---- The stages as functions ----

  /** Python slicing `order[slate_size : slate_size * 5]`. */
  function Window(order: seq<nat>, slateSize: nat): seq<nat> {
    var upto := Take(order, slateSize * 5);
    upto[Min(|upto|, slateSize)..]
  }

  function Gather<T>(s: seq<T>, at: seq<nat>): (r: seq<T>)
    requires forall a | 0 <= a < |at| :: at[a] < |s|
    ensures |r| == |at| && forall a | 0 <= a < |at| :: r[a] == s[at[a]]
  {
    seq(|at|, a requires 0 <= a < |at| => s[at[a]])
  }

  /** Diversification runs on the head of the score order only. */
  function HeadProblem(c: Candidates, s: Settings): (p: Problem)
    requires c.Valid()
    ensures p.Valid() && |p.relevance| == |Take(c.pool.order, Max(s.slateSize * 4, 40))|
  {
    var head := Take(c.pool.order, Max(s.slateSize * 4, 40));
    Problem(Gather(c.scores, head), Gather(c.unit, head), s.lambda,
            Some(Caps(Gather(c.pool.genres, head), s.cap)))
  }

  /** Candidates for exploration: well rated, not in the core, in a genre the core shows (or does not show). */
  ghost function Eligible(pool: Pool, core: seq<nat>, window: seq<nat>, unseen: bool): (r: seq<nat>)
    requires |pool.votes| == |pool.genres|
    requires forall a | 0 <= a < |window| :: window[a] < |pool.genres|
    ensures forall a | 0 <= a < |r| :: r[a] < |pool.genres|
    ensures forall i | i in r :: i in window && i !in core && pool.votes[i] >= EXPLORATION_MIN_VOTE
                                 && (GenreCount(pool, core, pool.genres[i]) == 0) == unseen
    ensures forall i | i in window && i !in core && pool.votes[i] >= EXPLORATION_MIN_VOTE
                       && (GenreCount(pool, core, pool.genres[i]) == 0) == unseen :: i in r
  {
    if window == [] then []
    else
      var last := |window| - 1;
      var i := window[last];
      var r := Eligible(pool, core, window[..last], unseen);
      if i !in core && pool.votes[i] >= EXPLORATION_MIN_VOTE
         && (GenreCount(pool, core, pool.genres[i]) == 0) == unseen
      then r + [i] else r
  }

  lemma {:induction false} EligibleDistinct(pool: Pool, core: seq<nat>, window: seq<nat>, unseen: bool)
    requires |pool.votes| == |pool.genres|
    requires forall a | 0 <= a < |window| :: window[a] < |pool.genres|
    requires Distinct(window)
    ensures Distinct(Eligible(pool, core, window, unseen))
  {
    if window != [] {
      EligibleDistinct(pool, core, window[..|window| - 1], unseen);
    }
  }

  /** The first pass, over genres the core does not show. */
  ghost function FreshPass(c: Candidates, s: Settings, core: seq<nat>): seq<nat>
    requires c.Valid() && s.slateSize > 0
  {
    var unseen := Eligible(c.pool, core, Window(c.pool.order, s.slateSize), true);
    Explore(c.pool, s.cap, s.Slots(), core, [], unseen, true, |unseen|)
  }

  ghost function Exploration(c: Candidates, s: Settings, core: seq<nat>): seq<nat>
    requires c.Valid() && s.slateSize > 0
  {
    var familiar := Eligible(c.pool, core, Window(c.pool.order, s.slateSize), false);
    Explore(c.pool, s.cap, s.Slots(), core, FreshPass(c, s, core), familiar, false, |familiar|)
  }

  /** The core is the greedy run on the head, read back as pool positions. */
  ghost predicate IsCore(c: Candidates, s: Settings, core: seq<nat>)
    requires c.Valid()
  {
    exists picks ::
      IsGreedyRun(HeadProblem(c, s), s.slateSize - s.Slots(), picks) && core == Gather(c.pool.order, picks)
  }

  /** The stages of one ranking, each tied to its definition. */
  ghost predicate IsRanking(c: Candidates, s: Settings, core: seq<nat>, exploration: seq<nat>,
                            backfill: seq<nat>, final: seq<nat>)
    requires c.Valid() && s.slateSize > 0
  {
    && IsCore(c, s, core)
    && exploration == Exploration(c, s, core)
    && Picks(c.pool, core + exploration)
    && core + exploration + backfill == Fill(c.pool, s.cap, core + exploration, s.slateSize)
    && IsSpread(core + backfill, exploration, Step(|core + backfill|, |exploration|), final)
    && multiset(final) == multiset(core + backfill) + multiset(exploration)
  }

  // ---- Facts about the stages ----

  lemma WindowFacts(order: seq<nat>, slateSize: nat)
    requires Distinct(order)
    ensures Distinct(Window(order, slateSize))
    ensures forall i | i in Window(order, slateSize) :: i in order
  {}

  /** Counting by genre is the same before and after mapping head positions to pool positions. */
  lemma {:induction false} CoreCounts(c: Candidates, s: Settings, picks: seq<nat>, g: int)
    requires c.Valid() && InPool(HeadProblem(c, s), picks) && Distinct(picks)
    ensures Picks(c.pool, Gather(c.pool.order, picks))
    ensures GenreCount(c.pool, Gather(c.pool.order, picks), g) == GroupCount(HeadProblem(c, s), picks, g)
  {
    var p := HeadProblem(c, s);
    if picks == [] {
      assert InGroup(Elems(picks), p.caps.value.groups, g) == {};
      assert InGroup(Elems(Gather(c.pool.order, picks)), c.pool.genres, g) == {};
    } else {
      var front, last := picks[..|picks| - 1], picks[|picks| - 1];
      CoreCounts(c, s, front, g);
      assert picks == front + [last];
      assert Gather(c.pool.order, picks) == Gather(c.pool.order, front) + [c.pool.order[last]];
      CountsAfter(p, front, last);
      assert c.pool.order[last] !in Gather(c.pool.order, front);
      PicksAppend(c.pool, Gather(c.pool.order, front), c.pool.order[last]);
      CountAppend(c.pool, Gather(c.pool.order, front), c.pool.order[last]);
    }
  }

  /** The core is capped, non-empty, and opens with the top-scored candidate. */
  lemma CoreFacts(c: Candidates, s: Settings, picks: seq<nat>)
    requires c.Valid() && s.slateSize > 0 && |c.scores| > 0
    requires IsGreedyRun(HeadProblem(c, s), s.slateSize - s.Slots(), picks)
    ensures var core := Gather(c.pool.order, picks);
            && Picks(c.pool, core)
            && 0 < |core| <= s.slateSize - s.Slots()
            && core[0] == c.pool.order[0]
            && forall g :: GenreCount(c.pool, core, g) <= Max(1, s.cap)
  {
    var p, k := HeadProblem(c, s), s.slateSize - s.Slots();
    RunDistinct(p, k, picks);
    RunRespectsCaps(p, k, picks);
    forall g
      ensures GenreCount(c.pool, Gather(c.pool.order, picks), g) <= Max(1, s.cap)
    {
      CoreCounts(c, s, picks, g);
    }
    CoreCounts(c, s, picks, 0);
    FirstPick(c, s, picks);
  }

  lemma FirstPick(c: Candidates, s: Settings, picks: seq<nat>)
    requires c.Valid() && s.slateSize > 0 && |c.scores| > 0
    requires IsGreedyRun(HeadProblem(c, s), s.slateSize - s.Slots(), picks)
    ensures |picks| > 0 && picks[0] == 0
  {
    var p := HeadProblem(c, s);
    assert InGroup(Elems<nat>([]), p.caps.value.groups, p.caps.value.groups[0]) == {};
    assert Open(p, [], 0);
    if picks == [] {
      assert false;
    }
    assert picks[..0] == [];
    assert IsFirstBest(p, picks[..0], picks[0]);
    HeadStartsBest(c, s, picks[0]);
  }

  lemma HeadStartsBest(c: Candidates, s: Settings, i: nat)
    requires c.Valid() && i < |HeadProblem(c, s).relevance|
    ensures HeadProblem(c, s).relevance[i] <= HeadProblem(c, s).relevance[0]
  {
    if i > 0 {
      assert Precedes(Negated(c.scores), c.pool.order[0], c.pool.order[i]);
    }
  }

  lemma PassSound(c: Candidates, s: Settings, core: seq<nat>, found: seq<nat>, candidates: seq<nat>, distinct: bool)
    requires c.Valid() && |found| <= s.Slots() && Picks(c.pool, core + found)
    requires forall a | 0 <= a < |candidates| :: candidates[a] < |c.pool.genres|
    requires Distinct(candidates) && forall a | 0 <= a < |candidates| :: candidates[a] !in core + found
    ensures var f := Explore(c.pool, s.cap, s.Slots(), core, found, candidates, distinct, |candidates|);
            && found <= f && |f| <= s.Slots() && Picks(c.pool, core + f)
            && forall i | i in f :: i in found || i in candidates
  {
    ExploreSound(c.pool, s.cap, s.Slots(), core, found, candidates, distinct, |candidates|);
    assert candidates[..|candidates|] == candidates;
  }

  lemma EligibleFits(c: Candidates, s: Settings, core: seq<nat>, unseen: bool)
    requires c.Valid() && s.slateSize > 0
    ensures var e := Eligible(c.pool, core, Window(c.pool.order, s.slateSize), unseen);
            Distinct(e) && forall i | i in e :: i !in core
  {
    WindowFacts(c.pool.order, s.slateSize);
    EligibleDistinct(c.pool, core, Window(c.pool.order, s.slateSize), unseen);
  }

  lemma FreshFacts(c: Candidates, s: Settings, core: seq<nat>)
    requires c.Valid() && s.slateSize > 0 && Picks(c.pool, core)
    ensures var first := FreshPass(c, s, core);
            && |first| <= s.Slots() && Picks(c.pool, core + first)
            && forall i | i in first :: i in Eligible(c.pool, core, Window(c.pool.order, s.slateSize), true)
  {
    EligibleFits(c, s, core, true);
    assert core + [] == core;
    PassSound(c, s, core, [], Eligible(c.pool, core, Window(c.pool.order, s.slateSize), true), true);
  }

  /** Titles of the second pass are neither in the core nor among the fresh picks. */
  lemma FamiliarFits(c: Candidates, s: Settings, core: seq<nat>)
    requires c.Valid() && s.slateSize > 0 && Picks(c.pool, core)
    ensures var e := Eligible(c.pool, core, Window(c.pool.order, s.slateSize), false);
            Distinct(e) && forall a | 0 <= a < |e| :: e[a] !in core + FreshPass(c, s, core)
  {
    var e := Eligible(c.pool, core, Window(c.pool.order, s.slateSize), false);
    EligibleFits(c, s, core, false);
    FreshFacts(c, s, core);
    forall a | 0 <= a < |e|
      ensures e[a] !in core + FreshPass(c, s, core)
    {
      assert e[a] in e;
      assert GenreCount(c.pool, core, c.pool.genres[e[a]]) != 0;
    }
  }

  /** Picks of both passes stay distinct, within the slots, and eligible. */
  lemma Passes(c: Candidates, s: Settings, core: seq<nat>)
    requires c.Valid() && s.slateSize > 0 && Picks(c.pool, core)
    ensures var first, x := FreshPass(c, s, core), Exploration(c, s, core);
            && first <= x && |x| <= s.Slots() && Picks(c.pool, core + x)
            && forall i | i in x :: i in first || i in Eligible(c.pool, core, Window(c.pool.order, s.slateSize), false)
  {
    FreshFacts(c, s, core);
    FamiliarFits(c, s, core);
    var familiar := Eligible(c.pool, core, Window(c.pool.order, s.slateSize), false);
    PassSound(c, s, core, FreshPass(c, s, core), familiar, false);
  }

  /** Exploration stays within its slots, the window, the rating floor and the cap. */
  lemma ExplorationFacts(c: Candidates, s: Settings, core: seq<nat>)
    requires c.Valid() && s.slateSize > 0 && Picks(c.pool, core)
    ensures var x := Exploration(c, s, core);
            && |x| <= s.Slots()
            && Picks(c.pool, core + x)
            && (forall i | i in x :: i in Window(c.pool.order, s.slateSize) && c.pool.votes[i] >= EXPLORATION_MIN_VOTE)
            && forall g :: GenreCount(c.pool, core, g) <= GenreCount(c.pool, core + x, g)
                           <= Max(GenreCount(c.pool, core, g), s.cap)
  {
    FreshFacts(c, s, core);
    Passes(c, s, core);
    forall g
      ensures GenreCount(c.pool, core, g) <= GenreCount(c.pool, core + Exploration(c, s, core), g)
              <= Max(GenreCount(c.pool, core, g), s.cap)
    {
      ExplorationCapped(c, s, core, g);
    }
  }

  lemma ExplorationCapped(c: Candidates, s: Settings, core: seq<nat>, g: int)
    requires c.Valid() && s.slateSize > 0 && Picks(c.pool, core)
    ensures GenreCount(c.pool, core, g) <= GenreCount(c.pool, core + FreshPass(c, s, core), g)
            <= GenreCount(c.pool, core + Exploration(c, s, core), g) <= Max(GenreCount(c.pool, core, g), s.cap)
  {
    var window := Window(c.pool.order, s.slateSize);
    var unseen, familiar := Eligible(c.pool, core, window, true), Eligible(c.pool, core, window, false);
    EligibleFits(c, s, core, true);
    FreshFacts(c, s, core);
    FamiliarFits(c, s, core);
    assert core + [] == core;
    ExploreCapped(c.pool, s.cap, s.Slots(), core, [], unseen, true, |unseen|, g);
    ExploreCapped(c.pool, s.cap, s.Slots(), core, FreshPass(c, s, core), familiar, false, |familiar|, g);
  }

  lemma DistinctFromMultiset<T>(a: seq<T>, b: seq<T>)
    requires multiset(a) == multiset(b) && Distinct(b)
    ensures Distinct(a) && Elems(a) == Elems(b) && |a| == |b|
  {
    forall x
      ensures multiset(b)[x] <= 1
    {
      OccursOnce(b, x);
    }
    forall i, j | 0 <= i < j < |a|
      ensures a[i] != a[j]
    {
      assert a == a[..j] + a[j..];
      assert multiset(a)[a[j]] == multiset(a[..j])[a[j]] + multiset(a[j..])[a[j]];
      assert a[j..][0] == a[j] && a[..j][i] == a[i];
      assert a[i] in multiset(a[..j]) && a[j] in multiset(a[j..]);
    }
    forall x
      ensures x in a <==> x in b
    {
      assert x in multiset(a) <==> x in multiset(b);
    }
    assert |a| == |multiset(a)| && |b| == |multiset(b)|;
  }

  lemma {:induction false} OccursOnce<T>(b: seq<T>, x: T)
    requires Distinct(b)
    ensures multiset(b)[x] <= 1
  {
    if b != [] {
      var last := |b| - 1;
      OccursOnce(b[..last], x);
      assert b == b[..last] + [b[last]];
      if b[last] == x {
        assert x !in b[..last];
      }
    }
  }

  // ---- Main results ----

  /** The three stages pick distinct titles, the first being the best, and start the fill below the cap. */
  lemma StageFacts(c: Candidates, s: Settings, core: seq<nat>, exploration: seq<nat>, backfill: seq<nat>,
                   final: seq<nat>)
    requires c.Valid() && s.slateSize > 0 && |c.scores| > 0
    requires IsRanking(c, s, core, exploration, backfill, final)
    ensures |core| > 0 && core[0] == c.pool.order[0]
    ensures |exploration| <= s.Slots()
    ensures Picks(c.pool, core + exploration) && |core + exploration| <= s.slateSize
    ensures forall g :: GenreCount(c.pool, core + exploration, g) <= Max(1, s.cap)
  {
    var picks :| IsGreedyRun(HeadProblem(c, s), s.slateSize - s.Slots(), picks) && core == Gather(c.pool.order, picks);
    CoreFacts(c, s, picks);
    ExplorationFacts(c, s, core);
  }

  /** The slate has exactly min(slate size, pool size) distinct pool titles and opens with the best-scored one. */
  lemma SlateComplete(c: Candidates, s: Settings, core: seq<nat>, exploration: seq<nat>, backfill: seq<nat>,
                      final: seq<nat>)
    requires c.Valid() && s.slateSize > 0 && |c.scores| > 0
    requires IsRanking(c, s, core, exploration, backfill, final)
    ensures |final| == Min(s.slateSize, |c.scores|)
    ensures Picks(c.pool, final)
    ensures Elems(final) == Elems(core + exploration + backfill)
    ensures final[0] == c.pool.order[0]
    ensures forall i | 0 <= i < |c.scores| :: c.scores[i] <= c.scores[final[0]]
  {
    StageFacts(c, s, core, exploration, backfill, final);
    FillSize(c.pool, s.cap, core + exploration, s.slateSize);
    assert multiset(core + exploration + backfill) == multiset(final);
    DistinctFromMultiset(final, core + exploration + backfill);
    FirstOfSpread(core + backfill, exploration, final);
    TopScore(c);
  }

  lemma FirstOfSpread<T>(main: seq<T>, extra: seq<T>, out: seq<T>)
    requires main != [] && IsSpread(main, extra, Step(|main|, |extra|), out)
    ensures out[0] == main[0]
  {
    var step := Step(|main|, |extra|);
    assert 0 / step == 0;
    assert MainPos(0, step, |extra|) == 0;
  }

  lemma TopScore(c: Candidates)
    requires c.Valid() && |c.scores| > 0
    ensures forall i | 0 <= i < |c.scores| :: c.scores[i] <= c.scores[c.pool.order[0]]
  {
    forall i | 0 <= i < |c.scores|
      ensures c.scores[i] <= c.scores[c.pool.order[0]]
    {
      assert i in c.pool.order;
      var a :| 0 <= a < |c.pool.order| && c.pool.order[a] == i;
      assert a > 0 ==> Precedes(Negated(c.scores), c.pool.order[0], c.pool.order[a]);
    }
  }

  /** No genre lags by more than one behind a genre that went over the cap while it still had candidates. */
  lemma SlateFair(c: Candidates, s: Settings, core: seq<nat>, exploration: seq<nat>, backfill: seq<nat>,
                  final: seq<nat>)
    requires c.Valid() && s.slateSize > 0 && |c.scores| > 0
    requires IsRanking(c, s, core, exploration, backfill, final)
    ensures Fair(c.pool, Max(1, s.cap), final)
  {
    StageFacts(c, s, core, exploration, backfill, final);
    var base := Max(1, s.cap);
    var all := core + exploration + backfill;
    FillFair(c.pool, base, s.cap, s.cap, core + exploration, s.slateSize);
    SlateComplete(c, s, core, exploration, backfill, final);
    FairByElems(c.pool, base, all, final);
  }

  lemma FairByElems(pool: Pool, base: int, a: seq<nat>, b: seq<nat>)
    requires pool.Valid() && Fair(pool, base, a) && Elems(a) == Elems(b)
    ensures Fair(pool, base, b)
  {
    forall g, i: nat | i < |pool.genres| && i !in b && GenreCount(pool, b, g) > base
      ensures GenreCount(pool, b, pool.genres[i]) >= GenreCount(pool, b, g) - 1
    {
      assert i !in Elems(b) && i !in a;
      assert GenreCount(pool, a, g) == GenreCount(pool, b, g);
      assert GenreCount(pool, a, pool.genres[i]) == GenreCount(pool, b, pool.genres[i]);
    }
  }

  /** Min-max optimality over the whole slate, for any cap: a genre with c titles, more than the cap,
      means every equally large set of pool titles has a genre with at least c. */
  lemma SlateMinMax(c: Candidates, s: Settings, core: seq<nat>, exploration: seq<nat>, backfill: seq<nat>,
                    final: seq<nat>, g: int, T: set<nat>)
    requires c.Valid() && s.slateSize > 0 && |c.scores| > 0
    requires IsRanking(c, s, core, exploration, backfill, final)
    requires GenreCount(c.pool, final, g) > s.cap
    requires Within(T, |c.pool.genres|) && |T| == |final|
    ensures exists h :: |InGroup(T, c.pool.genres, h)| >= GenreCount(c.pool, final, g)
  {
    SlateComplete(c, s, core, exploration, backfill, final);
    if GenreCount(c.pool, final, g) > Max(1, s.cap) {
      SlateFair(c, s, core, exploration, backfill, final);
      FairIsMinMax(c.pool, Max(1, s.cap), final, g, T);
    } else {
      var i := Pick(T);
      var h := c.pool.genres[i];
      assert i in InGroup(T, c.pool.genres, h);
      assert |InGroup(T, c.pool.genres, h)| >= 1;
    }
  }

  /** The cap holds in every genre exactly when some equally large set of pool titles respects it. */
  lemma CapHoldsWhenPossible(c: Candidates, s: Settings, core: seq<nat>, exploration: seq<nat>, backfill: seq<nat>,
                             final: seq<nat>)
    requires c.Valid() && s.slateSize > 0 && |c.scores| > 0
    requires IsRanking(c, s, core, exploration, backfill, final)
    ensures (forall g :: GenreCount(c.pool, final, g) <= s.cap)
            <==> exists T: set<nat> ::
                   Within(T, |c.pool.genres|) && |T| == |final|
                   && forall h :: |InGroup(T, c.pool.genres, h)| <= s.cap
  {
    SlateComplete(c, s, core, exploration, backfill, final);
    DistinctSize(final);
    if forall g :: GenreCount(c.pool, final, g) <= s.cap {
      var T := Elems(final);
      forall h
        ensures |InGroup(T, c.pool.genres, h)| <= s.cap
      {
        assert GenreCount(c.pool, final, h) <= s.cap;
      }
    } else {
      var g :| GenreCount(c.pool, final, g) > s.cap;
      forall T: set<nat> | Within(T, |c.pool.genres|) && |T| == |final|
        ensures exists h :: |InGroup(T, c.pool.genres, h)| > s.cap
      {
        SlateMinMax(c, s, core, exploration, backfill, final, g, T);
      }
    }
  }
}
