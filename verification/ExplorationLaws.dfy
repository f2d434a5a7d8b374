/** What the exploration slots promise: new genres first, one title each, and no slot left while a title fits. */
module ExplorationLaws {
  import opened Basics
  import opened Interleave
  import opened Mmr
  import opened MmrOptimality
  import opened SlateFill
  import opened Slate

  ghost predicate OnePerGenre(pool: Pool, found: seq<nat>) {
    forall a, b | 0 <= a < b < |found| && found[a] < |pool.genres| && found[b] < |pool.genres| ::
      pool.genres[found[a]] != pool.genres[found[b]]
  }

  lemma {:induction false} ExploreOnePerGenre(pool: Pool, cap: int, slots: nat, taken: seq<nat>, candidates: seq<nat>,
                                              j: nat)
    requires j <= |candidates|
    requires forall a | 0 <= a < |candidates| :: candidates[a] < |pool.genres|
    ensures OnePerGenre(pool, Explore(pool, cap, slots, taken, [], candidates, true, j))
    decreases j
  {
    if j > 0 {
      ExploreOnePerGenre(pool, cap, slots, taken, candidates, j - 1);
      var f := Explore(pool, cap, slots, taken, [], candidates, true, j - 1);
      var i := candidates[j - 1];
      if !GenreAmong(pool, f, pool.genres[i]) {
        assert forall a | 0 <= a < |f| && f[a] < |pool.genres| :: pool.genres[f[a]] != pool.genres[i];
      }
    }
  }

  /** Exploration opens with titles of pairwise different genres the core lacks; all later ones are of
      genres it shows. */
  lemma ExplorationShowsNewGenres(c: Candidates, s: Settings, core: seq<nat>)
    requires c.Valid() && s.slateSize > 0 && Picks(c.pool, core)
    ensures var first, x := FreshPass(c, s, core), Exploration(c, s, core);
            && first <= x && OnePerGenre(c.pool, first)
            && (forall a | 0 <= a < |x| :: x[a] < |c.pool.genres|
                  && (GenreCount(c.pool, core, c.pool.genres[x[a]]) == 0 <==> a < |first|))
  {
    var pool := c.pool;
    var unseen := Eligible(pool, core, Window(pool.order, s.slateSize), true);
    FreshFacts(c, s, core);
    Passes(c, s, core);
    ExploreOnePerGenre(pool, s.cap, s.Slots(), core, unseen, |unseen|);
    var first, x := FreshPass(c, s, core), Exploration(c, s, core);
    forall a | 0 <= a < |x|
      ensures x[a] < |pool.genres| && (GenreCount(pool, core, pool.genres[x[a]]) == 0 <==> a < |first|)
    {
      assert x[a] in core + x && x[a] in Elems(core + x);
      LaterPicks(pool, core, first, x, a);
    }
  }

  lemma LaterPicks(pool: Pool, core: seq<nat>, first: seq<nat>, x: seq<nat>, a: nat)
    requires first <= x && Picks(pool, core + x) && a < |x|
    ensures a < |first| <==> x[a] in first
  {
    assert forall i | 0 <= i < |x| :: (core + x)[|core| + i] == x[i];
    assert Distinct(x);
    assert forall b | 0 <= b < |first| :: first[b] == x[b];
    if a < |first| {
      assert first[a] == x[a];
    }
  }

  /** A slot stays empty only when no eligible title fits: each is at its genre's cap or repeats a new genre. */
  lemma ExplorationMaximal(c: Candidates, s: Settings, core: seq<nat>, i: nat)
    requires c.Valid() && s.slateSize > 0 && Picks(c.pool, core)
    requires i in Window(c.pool.order, s.slateSize) && i !in core && c.pool.votes[i] >= EXPLORATION_MIN_VOTE
    ensures var x := Exploration(c, s, core);
            || |x| >= s.Slots() || i in x || GenreCount(c.pool, core + x, c.pool.genres[i]) >= s.cap
            || (GenreCount(c.pool, core, c.pool.genres[i]) == 0 && GenreAmong(c.pool, x, c.pool.genres[i]))
  {
    if GenreCount(c.pool, core, c.pool.genres[i]) == 0 {
      FreshMaximal(c, s, core, i);
    } else {
      FamiliarMaximal(c, s, core, i);
    }
  }

  lemma FamiliarMaximal(c: Candidates, s: Settings, core: seq<nat>, i: nat)
    requires c.Valid() && s.slateSize > 0 && Picks(c.pool, core)
    requires i in Eligible(c.pool, core, Window(c.pool.order, s.slateSize), false)
    ensures var x := Exploration(c, s, core);
            |x| >= s.Slots() || i in x || GenreCount(c.pool, core + x, c.pool.genres[i]) >= s.cap
  {
    FreshFacts(c, s, core);
    FamiliarFits(c, s, core);
    var familiar := Eligible(c.pool, core, Window(c.pool.order, s.slateSize), false);
    var a :| 0 <= a < |familiar| && familiar[a] == i;
    ExploreMaximal(c.pool, s.cap, s.Slots(), core, FreshPass(c, s, core), familiar, false, |familiar|, a);
  }

  /** The same for a new genre, right after the first pass. */
  lemma FreshSettled(c: Candidates, s: Settings, core: seq<nat>, i: nat)
    requires c.Valid() && s.slateSize > 0 && Picks(c.pool, core)
    requires i in Eligible(c.pool, core, Window(c.pool.order, s.slateSize), true)
    ensures i < |c.pool.genres| && Settled(c.pool, s.cap, s.Slots(), core, FreshPass(c, s, core), true, i)
  {
    EligibleFits(c, s, core, true);
    var unseen := Eligible(c.pool, core, Window(c.pool.order, s.slateSize), true);
    var a :| 0 <= a < |unseen| && unseen[a] == i;
    assert core + [] == core;
    ExploreMaximal(c.pool, s.cap, s.Slots(), core, [], unseen, true, |unseen|, a);
  }

  lemma FreshMaximal(c: Candidates, s: Settings, core: seq<nat>, i: nat)
    requires c.Valid() && s.slateSize > 0 && Picks(c.pool, core)
    requires i in Eligible(c.pool, core, Window(c.pool.order, s.slateSize), true)
    ensures var x := Exploration(c, s, core);
            || |x| >= s.Slots() || i in x || GenreCount(c.pool, core + x, c.pool.genres[i]) >= s.cap
            || GenreAmong(c.pool, x, c.pool.genres[i])
  {
    FreshSettled(c, s, core, i);
    Passes(c, s, core);
    ExplorationCapped(c, s, core, c.pool.genres[i]);
    AmongGrows(c.pool, FreshPass(c, s, core), Exploration(c, s, core), c.pool.genres[i]);
  }

  // ---- The stages are determined ----

  lemma CoreUnique(c: Candidates, s: Settings, core: seq<nat>, core': seq<nat>)
    requires c.Valid() && IsCore(c, s, core) && IsCore(c, s, core')
    ensures core == core'
  {
    var k := s.slateSize - s.Slots();
    var picks :| IsGreedyRun(HeadProblem(c, s), k, picks) && core == Gather(c.pool.order, picks);
    var picks' :| IsGreedyRun(HeadProblem(c, s), k, picks') && core' == Gather(c.pool.order, picks');
    RunUnique(HeadProblem(c, s), k, picks, picks');
  }

  lemma SameRest(taken: seq<nat>, a: seq<nat>, b: seq<nat>)
    requires taken + a == taken + b
    ensures a == b
  {
    assert (taken + a)[|taken|..] == a && (taken + b)[|taken|..] == b;
  }

  /** The definition admits exactly one ranking: every pick, every slot and every place of the slate is determined. */
  lemma RankingUnique(
    c: Candidates, s: Settings, core: seq<nat>, exploration: seq<nat>, backfill: seq<nat>, final: seq<nat>,
    core': seq<nat>, exploration': seq<nat>, backfill': seq<nat>, final': seq<nat>)
    requires c.Valid() && s.slateSize > 0
    requires IsRanking(c, s, core, exploration, backfill, final)
             && IsRanking(c, s, core', exploration', backfill', final')
    ensures core == core' && exploration == exploration' && backfill == backfill' && final == final'
  {
    CoreUnique(c, s, core, core');
    SameRest(core + exploration, backfill, backfill');
    SpreadUnique(core + backfill, exploration, Step(|core + backfill|, |exploration|), final, final');
  }
}
