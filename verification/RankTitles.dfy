/** The ranking pipeline as the loops the source runs, each proved against its stage (pipeline.py, `rank_titles`). */
module RankTitles {
  import opened Basics
  import opened Sorting
  import opened Vectors
  import opened Mmr
  import opened Interleave
  import opened SlateFill
  import opened Slate
  import opened Sums

  /** The slice of a catalog title that ranking looks at; `genre` is its primary genre. */
  datatype Title = Title(id: int, embedding: Option<Vec>, genre: int, voteAverage: real)

  datatype RankedItem = RankedItem(titleId: int, score: real)

  /** The numeric environment: the Euclidean norm and the score blend over one pool. */
  datatype Numerics = Numerics(norm: Vec -> real, score: seq<Title> -> seq<real>) {
    ghost predicate Valid() {
      forall pool :: |score(pool)| == |pool|
    }
  }

  // ---- Candidate pool ----

  predicate Usable(t: Title, exclude: set<int>) {
    t.id !in exclude && t.embedding.Some?
  }

  function Ids(pool: seq<Title>): (r: seq<int>)
    ensures |r| == |pool| && forall a | 0 <= a < |pool| :: r[a] == pool[a].id
  {
    seq(|pool|, a requires 0 <= a < |pool| => pool[a].id)
  }

  /** The first usable occurrence of every id, in input order. */
  function PoolOf(titles: seq<Title>, exclude: set<int>): seq<Title> {
    if titles == [] then []
    else
      var last := titles[|titles| - 1];
      var pool := PoolOf(titles[..|titles| - 1], exclude);
      if Usable(last, exclude) && last.id !in Ids(pool) then pool + [last] else pool
  }

  /** The pool holds distinct, embedded, non-excluded input titles, and no usable id is missing. */
  lemma {:induction false} PoolMeaning(titles: seq<Title>, exclude: set<int>)
    ensures var pool := PoolOf(titles, exclude);
            && Distinct(Ids(pool))
            && (forall t | t in pool :: t in titles && Usable(t, exclude))
            && (forall t | t in titles && Usable(t, exclude) :: t.id in Ids(pool))
  {
    if titles != [] {
      var front, last := titles[..|titles| - 1], titles[|titles| - 1];
      PoolMeaning(front, exclude);
      assert titles == front + [last];
      var before, after := PoolOf(front, exclude), PoolOf(titles, exclude);
      forall t | t in titles && Usable(t, exclude)
        ensures t.id in Ids(after)
      {
        if t in front {
          var a :| 0 <= a < |before| && Ids(before)[a] == t.id;
          assert Ids(after)[a] == t.id;
        } else if last.id in Ids(before) {
          assert after == before;
        } else {
          assert Ids(after)[|before|] == t.id;
        }
      }
    }
  }

  method BuildPool(titles: seq<Title>, exclude: set<int>) returns (pool: seq<Title>)
    ensures pool == PoolOf(titles, exclude)
  {
    pool := [];
    var seen: set<int> := {};
    for n := 0 to |titles|
      invariant pool == PoolOf(titles[..n], exclude)
      invariant forall id :: id in seen <==> id in Ids(pool)
    {
      assert titles[..n + 1][..n] == titles[..n];
      var title := titles[n];
      if !(title.id in exclude || title.id in seen || title.embedding.None?) {
        seen := seen + {title.id};
        assert Ids(pool + [title]) == Ids(pool) + [title.id];
        pool := pool + [title];
      }
    }
    assert titles[..|titles|] == titles;
  }

  // ---- Exploration ----

  /** The counters agree with the picks; a genre never seen counts zero. */
  ghost predicate Counts(pool: Pool, taken: seq<nat>, counts: map<int, nat>) {
    forall g :: Lookup(counts, g) == GenreCount(pool, taken, g)
  }

  method CountGenres(pool: Pool, core: seq<nat>) returns (counts: map<int, nat>)
    requires Picks(pool, core)
    ensures Counts(pool, core, counts)
  {
    counts := map[];
    forall g
      ensures GenreCount(pool, core[..0], g) == 0
    {
      assert InGroup(Elems(core[..0]), pool.genres, g) == {};
    }
    for n := 0 to |core|
      invariant Counts(pool, core[..n], counts)
    {
      assert core[n] in Elems(core);
      assert core[..n + 1] == core[..n] + [core[n]];
      CountAppend(pool, core[..n], core[n]);
      counts := counts[pool.genres[core[n]] := Lookup(counts, pool.genres[core[n]]) + 1];
    }
    assert core[..|core|] == core;
  }

  method SelectEligible(pool: Pool, core: seq<nat>, counts: map<int, nat>, window: seq<nat>, unseen: bool)
    returns (r: seq<nat>)
    requires |pool.votes| == |pool.genres| && Counts(pool, core, counts)
    requires forall a | 0 <= a < |window| :: window[a] < |pool.genres|
    ensures r == Eligible(pool, core, window, unseen)
  {
    r := [];
    for n := 0 to |window|
      invariant r == Eligible(pool, core, window[..n], unseen)
    {
      assert window[..n + 1][..n] == window[..n];
      var i := window[n];
      if i !in core && pool.votes[i] >= EXPLORATION_MIN_VOTE && (Lookup(counts, pool.genres[i]) == 0) == unseen {
        r := r + [i];
      }
    }
    assert window[..|window|] == window;
  }

  /** One pass of the exploration loop, with its early exit when the slots are full. */
  method ExplorePass(pool: Pool, cap: int, slots: nat, ghost taken: seq<nat>, found0: seq<nat>, candidates: seq<nat>,
                     distinct: bool, counts0: map<int, nat>, pickedGenres0: set<int>)
    returns (found: seq<nat>, counts: map<int, nat>, pickedGenres: set<int>)
    requires pool.Valid() && |found0| <= slots && Picks(pool, taken + found0)
    requires forall a | 0 <= a < |candidates| :: candidates[a] < |pool.genres|
    requires Distinct(candidates) && forall a | 0 <= a < |candidates| :: candidates[a] !in taken + found0
    requires Counts(pool, taken + found0, counts0)
    requires forall g :: g in pickedGenres0 <==> GenreAmong(pool, found0, g)
    ensures found == Explore(pool, cap, slots, taken, found0, candidates, distinct, |candidates|)
    ensures Counts(pool, taken + found, counts)
    ensures forall g :: g in pickedGenres <==> GenreAmong(pool, found, g)
  {
    found, counts, pickedGenres := found0, counts0, pickedGenres0;
    for n := 0 to |candidates|
      invariant found == Explore(pool, cap, slots, taken, found0, candidates, distinct, n)
      invariant |found| <= slots
      invariant Counts(pool, taken + found, counts)
      invariant forall g :: g in pickedGenres <==> GenreAmong(pool, found, g)
    {
      ExploreSound(pool, cap, slots, taken, found0, candidates, distinct, n);
      if |found| >= slots {
        ExploreFull(pool, cap, slots, taken, found0, candidates, distinct, n, |candidates|);
        return;
      }
      var i := candidates[n];
      var genre := pool.genres[i];
      if !(distinct && genre in pickedGenres) && Lookup(counts, genre) < cap {
        AddFound(pool, taken, found, i);
        found := found + [i];
        pickedGenres := pickedGenres + {genre};
        counts := counts[genre := Lookup(counts, genre) + 1];
      }
    }
  }

  lemma {:induction false} ExploreFull(pool: Pool, cap: int, slots: nat, taken: seq<nat>, found: seq<nat>,
                                       candidates: seq<nat>, distinct: bool, n: nat, j: nat)
    requires n <= j <= |candidates|
    requires forall a | 0 <= a < |candidates| :: candidates[a] < |pool.genres|
    requires |Explore(pool, cap, slots, taken, found, candidates, distinct, n)| >= slots
    ensures Explore(pool, cap, slots, taken, found, candidates, distinct, j)
            == Explore(pool, cap, slots, taken, found, candidates, distinct, n)
    decreases j
  {
    if n < j {
      ExploreFull(pool, cap, slots, taken, found, candidates, distinct, n, j - 1);
    }
  }

  lemma AddFound(pool: Pool, taken: seq<nat>, found: seq<nat>, i: nat)
    requires i < |pool.genres|
    ensures forall g :: GenreAmong(pool, found + [i], g) <==> GenreAmong(pool, found, g) || g == pool.genres[i]
    ensures i !in taken + found ==> forall g ::
              GenreCount(pool, taken + (found + [i]), g)
              == GenreCount(pool, taken + found, g) + if pool.genres[i] == g then 1 else 0
  {
    forall g
      ensures GenreAmong(pool, found + [i], g) <==> GenreAmong(pool, found, g) || g == pool.genres[i]
    {
      assert (found + [i])[|found|] == i;
      if GenreAmong(pool, found, g) {
        var a :| 0 <= a < |found| && found[a] < |pool.genres| && pool.genres[found[a]] == g;
        assert (found + [i])[a] == found[a];
      }
    }
    assert taken + found + [i] == taken + (found + [i]);
    if i !in taken + found {
      CountAppend(pool, taken + found, i);
    }
  }

  method RunExploration(c: Candidates, s: Settings, core: seq<nat>, counts0: map<int, nat>)
    returns (exploration: seq<nat>, counts: map<int, nat>)
    requires c.Valid() && s.slateSize > 0 && Picks(c.pool, core) && Counts(c.pool, core, counts0)
    ensures exploration == Exploration(c, s, core)
    ensures Counts(c.pool, core + exploration, counts)
  {
    var picked: set<int>;
    exploration, counts, picked := RunFreshPass(c, s, core, counts0);
    FreshFacts(c, s, core);
    FamiliarFits(c, s, core);
    var familiar := SelectEligible(c.pool, core, counts0, Window(c.pool.order, s.slateSize), false);
    exploration, counts, picked := ExplorePass(c.pool, s.cap, s.Slots(), core, exploration, familiar, false, counts,
        picked);
  }

  method RunFreshPass(c: Candidates, s: Settings, core: seq<nat>, counts0: map<int, nat>)
    returns (first: seq<nat>, counts: map<int, nat>, picked: set<int>)
    requires c.Valid() && s.slateSize > 0 && Picks(c.pool, core) && Counts(c.pool, core, counts0)
    ensures first == FreshPass(c, s, core)
    ensures Counts(c.pool, core + first, counts)
    ensures forall g :: g in picked <==> GenreAmong(c.pool, first, g)
  {
    EligibleFits(c, s, core, true);
    assert core + [] == core;
    var unseen := SelectEligible(c.pool, core, counts0, Window(c.pool.order, s.slateSize), true);
    first, counts, picked := ExplorePass(c.pool, s.cap, s.Slots(), core, [], unseen, true, counts0, {});
  }

  // ---- Backfill ----

  /** One round of the backfill loop under one cap, stopping as soon as nothing more is needed. */
  method SweepOnce(pool: Pool, cap: int, taken0: seq<nat>, target: nat, counts0: map<int, nat>)
    returns (taken: seq<nat>, counts: map<int, nat>)
    requires pool.Valid() && Picks(pool, taken0) && |taken0| <= target && Counts(pool, taken0, counts0)
    ensures taken == Sweep(pool, cap, taken0, target, |pool.order|)
    ensures Counts(pool, taken, counts)
  {
    taken, counts := taken0, counts0;
    for n := 0 to |pool.order|
      invariant taken == Sweep(pool, cap, taken0, target, n)
      invariant |taken| <= target
      invariant Counts(pool, taken, counts)
    {
      if |taken| >= target {
        SweepFull(pool, cap, taken0, target, n, |pool.order|);
        return;
      }
      var i := pool.order[n];
      if i !in taken && Lookup(counts, pool.genres[i]) < cap {
        CountAppend(pool, taken, i);
        taken := taken + [i];
        counts := counts[pool.genres[i] := Lookup(counts, pool.genres[i]) + 1];
      }
    }
  }

  lemma {:induction false} SweepFull(pool: Pool, cap: int, taken: seq<nat>, target: nat, n: nat, j: nat)
    requires pool.Valid() && n <= j <= |pool.order|
    requires |Sweep(pool, cap, taken, target, n)| >= target
    ensures Sweep(pool, cap, taken, target, j) == Sweep(pool, cap, taken, target, n)
    decreases j
  {
    if n < j {
      SweepFull(pool, cap, taken, target, n, j - 1);
    }
  }

  /** Raise the cap one step at a time until the slate is full or the pool is used up. */
  method Backfill(pool: Pool, cap0: int, taken0: seq<nat>, target: nat, counts0: map<int, nat>)
    returns (taken: seq<nat>)
    requires pool.Valid() && Picks(pool, taken0) && |taken0| <= target && Counts(pool, taken0, counts0)
    ensures taken == Fill(pool, cap0, taken0, target)
  {
    taken := taken0;
    var counts, cap := counts0, cap0;
    while |taken| < target && |taken| < |pool.order|
      invariant Picks(pool, taken) && |taken| <= target && Counts(pool, taken, counts)
      invariant Fill(pool, cap, taken, target) == Fill(pool, cap0, taken0, target)
      decreases if |taken| >= target || |taken| >= |pool.order| then 0 else 1 + Max(|pool.order| + 1 - cap, 0)
    {
      SweepPicks(pool, cap, taken, target, |pool.order|);
      SweepHighCap(pool, cap, taken, target);
      taken, counts := SweepOnce(pool, cap, taken, target, counts);
      cap := cap + 1;
    }
  }

  // ---- The whole ranking ----

  method RunCore(c: Candidates, s: Settings) returns (core: seq<nat>)
    requires c.Valid() && s.slateSize > 0 && |c.scores| > 0
    ensures IsCore(c, s, core)
    ensures Picks(c.pool, core) && |core| <= s.slateSize - s.Slots()
  {
    var picks := MmrOrder(HeadProblem(c, s), s.slateSize - s.Slots());
    CoreFacts(c, s, picks);
    core := Gather(c.pool.order, picks);
  }

  method RunBackfill(c: Candidates, s: Settings, taken0: seq<nat>, counts: map<int, nat>) returns (backfill: seq<nat>)
    requires c.Valid() && s.slateSize > 0
    requires Picks(c.pool, taken0) && |taken0| <= s.slateSize && Counts(c.pool, taken0, counts)
    ensures taken0 + backfill == Fill(c.pool, s.cap, taken0, s.slateSize)
    ensures |taken0 + backfill| <= s.slateSize
  {
    var taken := Backfill(c.pool, s.cap, taken0, s.slateSize, counts);
    FillSize(c.pool, s.cap, taken0, s.slateSize);
    backfill := taken[|taken0|..];
  }

  method RankPool(c: Candidates, s: Settings)
    returns (core: seq<nat>, exploration: seq<nat>, backfill: seq<nat>, final: seq<nat>)
    requires c.Valid() && s.slateSize > 0 && |c.scores| > 0
    ensures IsRanking(c, s, core, exploration, backfill, final)
  {
    core := RunCore(c, s);
    var counts := CountGenres(c.pool, core);
    exploration, counts := RunExploration(c, s, core, counts);
    ExplorationFacts(c, s, core);
    backfill := RunBackfill(c, s, core + exploration, counts);
    final := Merge(core + backfill, exploration, s.slateSize);
  }

  /** Spread the exploration picks through the rest and cut to the slate size; the cut removes nothing. */
  method Merge(main: seq<nat>, extra: seq<nat>, limit: nat) returns (final: seq<nat>)
    requires |main| + |extra| <= limit
    ensures IsSpread(main, extra, Step(|main|, |extra|), final)
    ensures multiset(final) == multiset(main) + multiset(extra)
  {
    var merged := InterleaveLists(main, extra);
    final := Take(merged, limit);
    assert final == merged;
  }

  function Genres(pool: seq<Title>): (r: seq<int>)
    ensures |r| == |pool| && forall a | 0 <= a < |pool| :: r[a] == pool[a].genre
  {
    seq(|pool|, a requires 0 <= a < |pool| => pool[a].genre)
  }

  function Votes(pool: seq<Title>): seq<real> {
    seq(|pool|, a requires 0 <= a < |pool| => pool[a].voteAverage)
  }

  function Embeddings(pool: seq<Title>): seq<Vec> {
    seq(|pool|, a requires 0 <= a < |pool| => match pool[a].embedding case None => [] case Some(v) => v)
  }

  function Scored(pool: seq<Title>, numerics: Numerics): (c: Candidates)
    requires numerics.Valid()
    ensures c.Valid() && c.scores == numerics.score(pool) && c.pool.genres == Genres(pool)
  {
    var scores := numerics.score(pool);
    var order := ArgsortDescending(scores);
    assert Distinct(order) by {
      StableOrderDistinct(Negated(scores), order);
    }
    Candidates(scores, UnitMatrix(Embeddings(pool), numerics.norm), Pool(Genres(pool), Votes(pool), order))
  }

  /** The returned items are the ranked pool positions, in order, with their scores. */
  ghost predicate Presents(pool: seq<Title>, scores: seq<real>, final: seq<nat>, items: seq<RankedItem>) {
    && |items| == |final|
    && |scores| == |pool|
    && forall a | 0 <= a < |items| :: final[a] < |pool| && items[a] == RankedItem(pool[final[a]].id, scores[final[a]])
  }

  ghost predicate DistinctTitles(items: seq<RankedItem>) {
    forall a, b | 0 <= a < b < |items| :: items[a].titleId != items[b].titleId
  }

  function CapOf(maxPerGenre: Option<int>, slateSize: int): int {
    match maxPerGenre case None => GenreCapFor(slateSize) case Some(m) => m
  }

  /** Some run of the stages produced these positions. */
  ghost predicate Ranked(c: Candidates, s: Settings, final: seq<nat>) {
    c.Valid() && s.slateSize > 0
    && exists core, exploration, backfill :: IsRanking(c, s, core, exploration, backfill, final)
  }

  /** Rank candidate titles for one user; `final` are the pool positions of the returned items. */
  method Rank(titles: seq<Title>, exclude: set<int>, slateSize: int, mmrLambda: real, explorationSlots: int,
              maxPerGenre: Option<int>, numerics: Numerics)
    returns (items: seq<RankedItem>, ghost final: seq<nat>)
    requires numerics.Valid()
    ensures |items| == Min(Max(slateSize, 0), |PoolOf(titles, exclude)|)
    ensures DistinctTitles(items)
    ensures Presents(PoolOf(titles, exclude), numerics.score(PoolOf(titles, exclude)), final, items)
    ensures items != [] ==>
              Ranked(Scored(PoolOf(titles, exclude), numerics),
                     Settings(slateSize, mmrLambda, explorationSlots, CapOf(maxPerGenre, slateSize)), final)
  {
    if slateSize <= 0 {
      return [], [];
    }
    var pool := BuildPool(titles, exclude);
    if pool == [] {
      return [], [];
    }
    PoolMeaning(titles, exclude);
    items, final := RankUsable(pool, Settings(slateSize, mmrLambda, explorationSlots, CapOf(maxPerGenre, slateSize)),
                               numerics);
  }

  method RankUsable(pool: seq<Title>, s: Settings, numerics: Numerics)
    returns (items: seq<RankedItem>, ghost final: seq<nat>)
    requires numerics.Valid() && pool != [] && Distinct(Ids(pool)) && s.slateSize > 0
    ensures |items| == Min(s.slateSize, |pool|)
    ensures DistinctTitles(items)
    ensures Presents(pool, numerics.score(pool), final, items)
    ensures Ranked(Scored(pool, numerics), s, final)
  {
    var c := Scored(pool, numerics);
    var core, exploration, backfill, order := RankPool(c, s);
    SlateComplete(c, s, core, exploration, backfill, order);
    InRangeByElems(order, |pool|);
    items := seq(|order|, a requires 0 <= a < |order| => RankedItem(pool[order[a]].id, c.scores[order[a]]));
    final := order;
    PresentedDistinct(pool, c.scores, order, items);
  }

  lemma PresentedDistinct(pool: seq<Title>, scores: seq<real>, final: seq<nat>, items: seq<RankedItem>)
    requires Presents(pool, scores, final, items) && Distinct(final) && Distinct(Ids(pool))
    ensures DistinctTitles(items)
  {
    forall a, b | 0 <= a < b < |items|
      ensures items[a].titleId != items[b].titleId
    {
      assert final[a] != final[b];
      assert Ids(pool)[final[a]] == items[a].titleId && Ids(pool)[final[b]] == items[b].titleId;
    }
  }

  lemma InRangeByElems(s: seq<nat>, n: nat)
    requires Within(Elems(s), n)
    ensures forall a | 0 <= a < |s| :: s[a] < n
  {
    forall a | 0 <= a < |s|
      ensures s[a] < n
    {
      assert s[a] in Elems(s);
    }
  }
}
