/** The stages of a ranking read off the score order itself: which places they look at, what they leave out and why
    (pipeline.py, `rank_titles`). */
module RankingMeaning {
  import opened Basics
  import opened Sums
  import opened Sorting
  import opened Vectors
  import opened Mmr
  import opened MmrOptimality
  import opened MmrPreference
  import opened Interleave
  import opened SlateFill
  import opened Slate
  import opened ExplorationLaws
  import RankTitles

  // ---- The pool ----

  /** The first usable title of its id. */
  predicate FirstOfId(titles: seq<RankTitles.Title>, exclude: set<int>, i: nat) {
    && i < |titles|
    && titles[i].id !in exclude && titles[i].embedding.Some?
    && forall j | 0 <= j < i && titles[j].id == titles[i].id :: titles[j].embedding.None?
  }

  /** The pool lists the first usable title of every id, and nothing else, in the order of the input. */
  lemma {:induction false} PoolInOrder(titles: seq<RankTitles.Title>, exclude: set<int>) returns (places: seq<nat>)
    ensures |places| == |RankTitles.PoolOf(titles, exclude)|
    ensures forall a, b | 0 <= a < b < |places| :: places[a] < places[b]
    ensures forall a | 0 <= a < |places| ::
              FirstOfId(titles, exclude, places[a]) && RankTitles.PoolOf(titles, exclude)[a] == titles[places[a]]
    ensures forall i: nat | FirstOfId(titles, exclude, i) :: i in places
  {
    if titles == [] {
      places := [];
    } else {
      var front, n := titles[..|titles| - 1], |titles| - 1;
      places := PoolInOrder(front, exclude);
      var pool := RankTitles.PoolOf(front, exclude);
      assert titles == front + [titles[n]];
      assert titles[..n] == front;
      forall i: nat | i < n
        ensures FirstOfId(titles, exclude, i) <==> FirstOfId(front, exclude, i)
      {
        FirstInFront(front, titles[n], exclude, i);
      }
      LastIsNew(titles, exclude);
      if RankTitles.Usable(titles[n], exclude) && titles[n].id !in RankTitles.Ids(pool) {
        places := places + [n];
      }
    }
  }

  lemma FirstInFront(front: seq<RankTitles.Title>, last: RankTitles.Title, exclude: set<int>, i: nat)
    requires i < |front|
    ensures FirstOfId(front + [last], exclude, i) <==> FirstOfId(front, exclude, i)
  {
    assert forall j | 0 <= j < |front| :: (front + [last])[j] == front[j];
  }

  lemma LastIsNew(titles: seq<RankTitles.Title>, exclude: set<int>)
    requires titles != []
    ensures var n := |titles| - 1;
            var pool := RankTitles.PoolOf(titles[..n], exclude);
            FirstOfId(titles, exclude, n)
            <==> RankTitles.Usable(titles[n], exclude) && titles[n].id !in RankTitles.Ids(pool)
  {
    var n := |titles| - 1;
    var front := titles[..n];
    var pool := RankTitles.PoolOf(front, exclude);
    RankTitles.PoolMeaning(front, exclude);
    if titles[n].id in RankTitles.Ids(pool) {
      var a :| 0 <= a < |pool| && RankTitles.Ids(pool)[a] == titles[n].id;
      assert pool[a] in pool;
      var j :| 0 <= j < n && front[j] == pool[a];
      assert titles[j].id == titles[n].id && titles[j].embedding.Some?;
    } else if RankTitles.Usable(titles[n], exclude) {
      forall j | 0 <= j < n && titles[j].id == titles[n].id
        ensures titles[j].embedding.None?
      {
        assert front[j] in front;
      }
    }
  }

  // ---- The core ----

  /** Diversification sees the best 4 * slateSize candidates, at least 40, each with its own score, vector and genre,
      under the configured trade-off and cap. */
  lemma HeadMeaning(c: Candidates, s: Settings, a: nat)
    requires c.Valid() && a < |c.scores| && (a < 4 * s.slateSize || a < 40)
    ensures var p := HeadProblem(c, s);
            && a < |p.relevance| && c.pool.order[a] < |c.scores|
            && p.relevance[a] == c.scores[c.pool.order[a]] && p.unit[a] == c.unit[c.pool.order[a]]
            && p.caps.Some? && p.caps.value.groups[a] == c.pool.genres[c.pool.order[a]]
            && p.lambda == s.lambda && p.caps.value.max == s.cap
  {}

  lemma HeadEnds(c: Candidates, s: Settings, a: nat)
    requires c.Valid() && a < |HeadProblem(c, s).relevance|
    ensures a < |c.scores| && (a < 4 * s.slateSize || a < 40)
  {}

  /** Places set aside for exploration: as many as configured, none for a negative number, never the whole slate. */
  ghost predicate SetAside(s: Settings, n: int) {
    && 0 <= n < s.slateSize
    && (0 <= s.explorationSlots < s.slateSize ==> n == s.explorationSlots)
    && (s.explorationSlots < 0 ==> n == 0)
    && (s.explorationSlots >= s.slateSize ==> n == s.slateSize - 1)
  }

  lemma SetAsideIsSlots(s: Settings, n: int)
    requires SetAside(s, n)
    ensures n == s.Slots()
  {}

  /** A run that stops short has taken every candidate or filled its group. */
  lemma RunStops(p: Problem, k: int, picks: seq<nat>, a: nat)
    requires p.Valid() && IsGreedyRun(p, k, picks) && |picks| < k && a < |p.relevance| && p.caps.Some?
    ensures a in picks
            || GroupCount(p, picks, p.caps.value.groups[a]) >= if p.caps.value.max < 1 then 1 else p.caps.value.max
  {
    assert !Open(p, picks, a);
  }

  lemma HeadStops(c: Candidates, s: Settings, picks: seq<nat>, a: nat, i: nat)
    requires c.Valid() && IsGreedyRun(HeadProblem(c, s), s.slateSize - s.Slots(), picks)
    requires |picks| < s.slateSize - s.Slots()
    requires a < |c.scores| && (a < 4 * s.slateSize || a < 40) && i == c.pool.order[a] && i < |c.scores|
    ensures var core := Gather(c.pool.order, picks);
            i in core || GenreCount(c.pool, core, c.pool.genres[i]) >= if s.cap < 1 then 1 else s.cap
  {
    var p := HeadProblem(c, s);
    RunDistinct(p, s.slateSize - s.Slots(), picks);
    HeadMeaning(c, s, a);
    RunStops(p, s.slateSize - s.Slots(), picks, a);
    CoreCounts(c, s, picks, c.pool.genres[i]);
    GatherHolds(c.pool.order, picks, a);
  }

  /** The core fills every other place unless every candidate it sees is taken or in a genre at its cap. */
  lemma CoreFillsItsShare(c: Candidates, s: Settings, core: seq<nat>, n: int, a: nat)
    requires c.Valid() && s.slateSize > 0 && IsCore(c, s, core) && SetAside(s, n)
    ensures |core| + n <= s.slateSize
    ensures a < |c.scores| && (a < 4 * s.slateSize || a < 40) && |core| + n < s.slateSize ==>
              c.pool.order[a] in core
              || GenreCount(c.pool, core, c.pool.genres[c.pool.order[a]]) >= if s.cap < 1 then 1 else s.cap
  {
    SetAsideIsSlots(s, n);
    var picks :| IsGreedyRun(HeadProblem(c, s), s.slateSize - s.Slots(), picks)
                 && core == Gather(c.pool.order, picks);
    if a < |c.scores| && (a < 4 * s.slateSize || a < 40) && |core| + n < s.slateSize {
      HeadStops(c, s, picks, a, c.pool.order[a]);
    }
  }

  lemma CorePrefix(c: Candidates, s: Settings, picks: seq<nat>, t: nat)
    requires c.Valid() && InPool(HeadProblem(c, s), picks) && t <= |picks|
    ensures Gather(c.pool.order, picks)[..t] == Gather(c.pool.order, picks[..t])
  {}

  /** The pool candidate at place b of the score order is still to be had when the core holds `taken`. */
  ghost predicate StillOpen(c: Candidates, s: Settings, taken: seq<nat>, b: nat)
    requires c.Valid()
  {
    && b < |c.scores| && (b < 4 * s.slateSize || b < 40)
    && c.pool.order[b] !in taken
    && GenreCount(c.pool, taken, c.pool.genres[c.pool.order[b]]) < if s.cap < 1 then 1 else s.cap
  }

  lemma OpenInHead(c: Candidates, s: Settings, picks: seq<nat>, b: nat)
    requires c.Valid() && InPool(HeadProblem(c, s), picks) && Distinct(picks)
    requires StillOpen(c, s, Gather(c.pool.order, picks), b)
    ensures Open(HeadProblem(c, s), picks, b)
  {
    HeadMeaning(c, s, b);
    CoreCounts(c, s, picks, c.pool.genres[c.pool.order[b]]);
    GatherHolds(c.pool.order, picks, b);
  }

  lemma GatherHolds(order: seq<nat>, picks: seq<nat>, b: nat)
    requires b < |order| && forall x | 0 <= x < |picks| :: picks[x] < |order|
    ensures b in picks ==> order[b] in Gather(order, picks)
  {
    if b in picks {
      var x :| 0 <= x < |picks| && picks[x] == b;
      assert Gather(order, picks)[x] == order[b];
    }
  }

  lemma PenaltyInHead(c: Candidates, s: Settings, picks: seq<nat>, b: nat, m: real)
    requires c.Valid() && InPool(HeadProblem(c, s), picks) && b < |HeadProblem(c, s).relevance|
    requires forall a | 0 <= a < |picks| :: c.pool.order[picks[a]] < |c.unit|
    requires c.pool.order[b] < |c.unit| && IsPenalty(c.unit, c.pool.order[b], Gather(c.pool.order, picks), m)
    ensures IsPenalty(HeadProblem(c, s).unit, b, picks, m)
  {
    var p, core := HeadProblem(c, s), Gather(c.pool.order, picks);
    forall a | 0 <= a < |picks|
      ensures Dot(p.unit[b], p.unit[picks[a]]) == Dot(c.unit[c.pool.order[b]], c.unit[core[a]])
    {
      assert p.unit[picks[a]] == c.unit[core[a]];
    }
  }

  /** Every later pick of the core is at least as much ahead of any other candidate in score, weighted by lambda, as it
      is behind in novelty, weighted by the rest. */
  lemma CorePreference(c: Candidates, s: Settings, core: seq<nat>, t: nat, b: nat, m: real, m': real)
    requires c.Valid() && s.slateSize > 0 && IsCore(c, s, core) && 0 < t < |core|
    requires forall a | 0 <= a < |core| :: core[a] < |c.scores|
    requires StillOpen(c, s, core[..t], b) && c.pool.order[b] < |c.scores|
    requires IsPenalty(c.unit, core[t], core[..t], m) && IsPenalty(c.unit, c.pool.order[b], core[..t], m')
    ensures Prefers(s.lambda, c.scores[core[t]], m, c.scores[c.pool.order[b]], m')
  {
    var p, k := HeadProblem(c, s), s.slateSize - s.Slots();
    var picks :| IsGreedyRun(p, k, picks) && core == Gather(c.pool.order, picks);
    CorePrefix(c, s, picks, t);
    HeadPreference(c, s, picks, t, b, m, m');
  }

  lemma HeadPreference(c: Candidates, s: Settings, picks: seq<nat>, t: nat, b: nat, m: real, m': real)
    requires c.Valid() && IsGreedyRun(HeadProblem(c, s), s.slateSize - s.Slots(), picks) && 0 < t < |picks|
    requires forall a | 0 <= a < |picks| :: c.pool.order[picks[a]] < |c.scores|
    requires StillOpen(c, s, Gather(c.pool.order, picks[..t]), b) && c.pool.order[b] < |c.scores|
    requires IsPenalty(c.unit, c.pool.order[picks[t]], Gather(c.pool.order, picks[..t]), m)
    requires IsPenalty(c.unit, c.pool.order[b], Gather(c.pool.order, picks[..t]), m')
    ensures Prefers(s.lambda, c.scores[c.pool.order[picks[t]]], m, c.scores[c.pool.order[b]], m')
  {
    var p, k := HeadProblem(c, s), s.slateSize - s.Slots();
    RunDistinct(p, k, picks);
    OpenInHead(c, s, picks[..t], b);
    HeadMeaning(c, s, b);
    PenaltyInHead(c, s, picks[..t], picks[t], m);
    PenaltyInHead(c, s, picks[..t], b, m');
    HeadEnds(c, s, picks[t]);
    HeadMeaning(c, s, picks[t]);
    PickIsPreferred(p, k, picks, t, b, m, m');
  }

  // ---- Exploration ----

  /** Places slateSize up to 5 * slateSize of the score order, from 0. */
  predicate InWindow(s: Settings, a: nat) {
    s.slateSize <= a < 5 * s.slateSize
  }

  lemma WindowMeaning(c: Candidates, s: Settings, a: nat)
    requires c.Valid() && s.slateSize > 0 && a < |c.pool.order|
    ensures c.pool.order[a] in Window(c.pool.order, s.slateSize) <==> InWindow(s, a)
  {
    PlacesOfWindow(c.pool.order, s.slateSize, a);
  }

  lemma PlacesOfWindow(order: seq<nat>, size: nat, a: nat)
    requires Distinct(order) && a < |order|
    ensures order[a] in Window(order, size) <==> size <= a < 5 * size
    ensures size <= a < 5 * size ==> a - size < |Window(order, size)| && Window(order, size)[a - size] == order[a]
  {
    var w := Window(order, size);
    if order[a] in w {
      var x :| 0 <= x < |w| && w[x] == order[a];
      assert order[size + x] == order[a];
    }
  }

  /** Exploration shows titles rated 6.8 or better from the places behind the slate, at most as many as set aside. */
  lemma ExplorationMeaning(c: Candidates, s: Settings, core: seq<nat>, n: int, i: nat)
    requires c.Valid() && s.slateSize > 0 && Picks(c.pool, core) && SetAside(s, n)
    ensures |Exploration(c, s, core)| <= n
    ensures i in Exploration(c, s, core) ==>
              && i < |c.pool.votes| && c.pool.votes[i] >= 6.8 && i !in core
              && exists a: nat :: InWindow(s, a) && a < |c.pool.order| && c.pool.order[a] == i
  {
    ExplorationFacts(c, s, core);
    if i in Exploration(c, s, core) {
      Passes(c, s, core);
      FreshFacts(c, s, core);
      var a :| 0 <= a < |c.pool.order| && c.pool.order[a] == i;
      WindowMeaning(c, s, a);
    }
  }

  /** A title of the window behind 6.8 that is left out met a full exploration, a genre at the cap, or a new genre that
      is shown already. */
  lemma ExplorationLeavesOut(c: Candidates, s: Settings, core: seq<nat>, n: int, a: nat)
    requires c.Valid() && s.slateSize > 0 && Picks(c.pool, core) && SetAside(s, n)
    requires InWindow(s, a) && a < |c.pool.order| && c.pool.order[a] !in core
    requires c.pool.votes[c.pool.order[a]] >= 6.8
    ensures var x, i := Exploration(c, s, core), c.pool.order[a];
            || |x| == n || i in x || GenreCount(c.pool, core + x, c.pool.genres[i]) >= s.cap
            || (GenreCount(c.pool, core, c.pool.genres[i]) == 0 && GenreAmong(c.pool, x, c.pool.genres[i]))
  {
    WindowMeaning(c, s, a);
    ExplorationMeaning(c, s, core, n, c.pool.order[a]);
    ExplorationMaximal(c, s, core, c.pool.order[a]);
  }

  /** What a pass may take from. */
  ghost predicate Fits(pool: Pool, slots: nat, taken: seq<nat>, found: seq<nat>, candidates: seq<nat>) {
    && pool.Valid() && |found| <= slots
    && (forall x | 0 <= x < |candidates| :: candidates[x] < |pool.genres|)
    && Distinct(candidates) && (forall x | 0 <= x < |candidates| :: candidates[x] !in taken + found)
    && Picks(pool, taken + found)
  }

  /** Within one pass and one genre, the earlier candidate is taken first. */
  lemma EarlierFirst(pool: Pool, cap: int, slots: nat, taken: seq<nat>, found: seq<nat>, candidates: seq<nat>,
                     distinct: bool, j: nat, a: nat, b: nat)
    requires Fits(pool, slots, taken, found, candidates)
    requires a < b < j <= |candidates| && pool.genres[candidates[a]] == pool.genres[candidates[b]]
    requires candidates[b] in Explore(pool, cap, slots, taken, found, candidates, distinct, j)
    ensures candidates[a] in Explore(pool, cap, slots, taken, found, candidates, distinct, j)
  {
    TakenAtTurn(pool, cap, slots, taken, found, candidates, distinct, j, b);
    LastTaken(pool, cap, slots, taken, found, candidates, distinct, b, a);
    StaysTaken(pool, cap, slots, taken, found, candidates, distinct, b + 1, j, candidates[a]);
  }

  /** What a pass takes at all it takes in its turn. */
  lemma {:induction false} TakenAtTurn(pool: Pool, cap: int, slots: nat, taken: seq<nat>, found: seq<nat>,
                                       candidates: seq<nat>, distinct: bool, j: nat, b: nat)
    requires Fits(pool, slots, taken, found, candidates) && b < j <= |candidates|
    requires candidates[b] in Explore(pool, cap, slots, taken, found, candidates, distinct, j)
    ensures candidates[b] in Explore(pool, cap, slots, taken, found, candidates, distinct, b + 1)
    decreases j
  {
    if b + 1 < j {
      ExploreStays(pool, cap, slots, taken, found, candidates, distinct, j - 1, candidates[b]);
      TakenAtTurn(pool, cap, slots, taken, found, candidates, distinct, j - 1, b);
    }
  }

  lemma {:induction false} StaysTaken(pool: Pool, cap: int, slots: nat, taken: seq<nat>, found: seq<nat>,
                                      candidates: seq<nat>, distinct: bool, j: nat, n: nat, i: nat)
    requires Fits(pool, slots, taken, found, candidates) && j <= n <= |candidates|
    requires i in Explore(pool, cap, slots, taken, found, candidates, distinct, j)
    ensures i in Explore(pool, cap, slots, taken, found, candidates, distinct, n)
    decreases n
  {
    if j < n {
      StaysTaken(pool, cap, slots, taken, found, candidates, distinct, j, n - 1, i);
      ExploreStays(pool, cap, slots, taken, found, candidates, distinct, n - 1, i);
    }
  }

  lemma ExploreStays(pool: Pool, cap: int, slots: nat, taken: seq<nat>, found: seq<nat>, candidates: seq<nat>,
                     distinct: bool, j: nat, i: nat)
    requires Fits(pool, slots, taken, found, candidates) && j < |candidates|
    ensures var f := Explore(pool, cap, slots, taken, found, candidates, distinct, j);
            var g := Explore(pool, cap, slots, taken, found, candidates, distinct, j + 1);
            (i in f ==> i in g) && (i in g ==> i in f || i == candidates[j]) && candidates[j] !in f
  {
    ExploreSound(pool, cap, slots, taken, found, candidates, distinct, j);
    NotYetTaken(candidates, taken + found, j);
  }

  lemma LastTaken(pool: Pool, cap: int, slots: nat, taken: seq<nat>, found: seq<nat>, candidates: seq<nat>,
                  distinct: bool, j: nat, a: nat)
    requires Fits(pool, slots, taken, found, candidates) && a < j < |candidates|
    requires pool.genres[candidates[a]] == pool.genres[candidates[j]]
    requires candidates[j] in Explore(pool, cap, slots, taken, found, candidates, distinct, j + 1)
    ensures candidates[a] in Explore(pool, cap, slots, taken, found, candidates, distinct, j + 1)
  {
    ExploreStays(pool, cap, slots, taken, found, candidates, distinct, j, candidates[a]);
    ExploreMaximal(pool, cap, slots, taken, found, candidates, distinct, j, a);
  }

  lemma NotYetTaken(candidates: seq<nat>, taken: seq<nat>, j: nat)
    requires Distinct(candidates) && j < |candidates| && candidates[j] !in taken
    ensures candidates[j] !in candidates[..j]
  {}

  /** i comes before k in the list. */
  ghost predicate Before(s: seq<nat>, i: nat, k: nat) {
    exists a, b :: 0 <= a < b < |s| && s[a] == i && s[b] == k
  }

  lemma PassInOrder(pool: Pool, cap: int, slots: nat, taken: seq<nat>, found: seq<nat>, candidates: seq<nat>,
                    distinct: bool, x: seq<nat>, i: nat, k: nat)
    requires Fits(pool, slots, taken, found, candidates) && Before(candidates, i, k)
    requires i < |pool.genres| && k < |pool.genres| && pool.genres[i] == pool.genres[k]
    requires x == Explore(pool, cap, slots, taken, found, candidates, distinct, |candidates|) && k in x
    ensures i in x
  {
    var a, b :| 0 <= a < b < |candidates| && candidates[a] == i && candidates[b] == k;
    EarlierFirst(pool, cap, slots, taken, found, candidates, distinct, |candidates|, a, b);
  }

  /** Candidates of a pass keep the order of the window. */
  lemma {:induction false} EligibleInOrder(pool: Pool, core: seq<nat>, window: seq<nat>, unseen: bool, p: nat, q: nat)
    requires FitsPool(pool, window) && p < q < |window|
    requires window[p] in Eligible(pool, core, window, unseen) && window[q] in Eligible(pool, core, window, unseen)
    ensures Before(Eligible(pool, core, window, unseen), window[p], window[q])
  {
    var shorter := window[..|window| - 1];
    var front := Eligible(pool, core, shorter, unseen);
    assert shorter[p] in shorter;
    if q == |window| - 1 {
      BeforeLast(front, window[p], window[q]);
    } else {
      assert shorter[q] in shorter;
      EligibleInOrder(pool, core, shorter, unseen, p, q);
      BeforeGrows(front, window[p], window[q], window[|window| - 1]);
    }
  }

  lemma BeforeLast(s: seq<nat>, i: nat, k: nat)
    requires i in s
    ensures Before(s + [k], i, k)
  {
    var a :| 0 <= a < |s| && s[a] == i;
    assert (s + [k])[a] == i && (s + [k])[|s|] == k;
  }

  lemma BeforeGrows(s: seq<nat>, i: nat, k: nat, x: nat)
    requires Before(s, i, k)
    ensures Before(s + [x], i, k)
  {
    var a, b :| 0 <= a < b < |s| && s[a] == i && s[b] == k;
    assert (s + [x])[a] == i && (s + [x])[b] == k;
  }

  /** i sits at place x of the window and may be picked. */
  ghost predicate EligibleAt(pool: Pool, core: seq<nat>, window: seq<nat>, unseen: bool, x: nat, i: nat)
    requires FitsPool(pool, window)
  {
    x < |window| && window[x] == i && i in Eligible(pool, core, window, unseen)
  }

  ghost predicate FitsPool(pool: Pool, window: seq<nat>) {
    && |pool.votes| == |pool.genres|
    && Distinct(window) && forall x | 0 <= x < |window| :: window[x] < |pool.genres|
  }

  lemma EligiblePair(pool: Pool, core: seq<nat>, window: seq<nat>, unseen: bool, x: nat, y: nat, i: nat, k: nat)
    requires FitsPool(pool, window) && x < y
    requires EligibleAt(pool, core, window, unseen, x, i) && EligibleAt(pool, core, window, unseen, y, k)
    ensures Before(Eligible(pool, core, window, unseen), i, k)
  {
    EligibleInOrder(pool, core, window, unseen, x, y);
  }

  lemma WindowEligible(pool: Pool, size: nat, core: seq<nat>, p: nat, i: nat, unseen: bool)
    requires pool.Valid() && size <= p < 5 * size && p < |pool.order| && i == pool.order[p]
    requires unseen == (GenreCount(pool, core, pool.genres[i]) == 0)
    requires i !in core && pool.votes[i] >= 6.8
    ensures FitsPool(pool, Window(pool.order, size))
    ensures EligibleAt(pool, core, Window(pool.order, size), unseen, p - size, i)
  {
    WindowFits(pool, size);
    PlacesOfWindow(pool.order, size, p);
  }

  lemma FreshOnly(c: Candidates, s: Settings, core: seq<nat>, i: nat)
    requires c.Valid() && s.slateSize > 0 && Picks(c.pool, core)
    ensures i in FreshPass(c, s, core) ==> i in Exploration(c, s, core)
    ensures i in Exploration(c, s, core) && i in Eligible(c.pool, core, Window(c.pool.order, s.slateSize), true) ==>
              i in FreshPass(c, s, core)
  {
    Passes(c, s, core);
  }

  lemma FreshFits(c: Candidates, s: Settings, core: seq<nat>)
    requires c.Valid() && s.slateSize > 0 && Picks(c.pool, core)
    ensures Fits(c.pool, s.Slots(), core, [], Eligible(c.pool, core, Window(c.pool.order, s.slateSize), true))
  {
    var e := Eligible(c.pool, core, Window(c.pool.order, s.slateSize), true);
    EligibleFits(c, s, core, true);
    assert core + [] == core;
    assert forall x | 0 <= x < |e| :: e[x] in e;
  }

  lemma SecondFits(c: Candidates, s: Settings, core: seq<nat>)
    requires c.Valid() && s.slateSize > 0 && Picks(c.pool, core)
    ensures Fits(c.pool, s.Slots(), core, FreshPass(c, s, core),
                 Eligible(c.pool, core, Window(c.pool.order, s.slateSize), false))
  {
    FamiliarFits(c, s, core);
    FreshFacts(c, s, core);
  }

  lemma FreshInOrder(c: Candidates, s: Settings, core: seq<nat>, i: nat, k: nat)
    requires c.Valid() && s.slateSize > 0 && Picks(c.pool, core)
    requires i < |c.pool.genres| && k < |c.pool.genres| && c.pool.genres[i] == c.pool.genres[k]
    requires Before(Eligible(c.pool, core, Window(c.pool.order, s.slateSize), true), i, k)
    requires k in Exploration(c, s, core)
    ensures i in Exploration(c, s, core)
  {
    LaterIsIn(Eligible(c.pool, core, Window(c.pool.order, s.slateSize), true), i, k);
    FreshOnly(c, s, core, k);
    FreshPassInOrder(c, s, core, i, k);
    FreshOnly(c, s, core, i);
  }

  lemma LaterIsIn(s: seq<nat>, i: nat, k: nat)
    requires Before(s, i, k)
    ensures k in s
  {}

  lemma FreshPassInOrder(c: Candidates, s: Settings, core: seq<nat>, i: nat, k: nat)
    requires c.Valid() && s.slateSize > 0 && Picks(c.pool, core)
    requires i < |c.pool.genres| && k < |c.pool.genres| && c.pool.genres[i] == c.pool.genres[k]
    requires Before(Eligible(c.pool, core, Window(c.pool.order, s.slateSize), true), i, k)
    requires k in FreshPass(c, s, core)
    ensures i in FreshPass(c, s, core)
  {
    FreshFits(c, s, core);
    PassInOrder(c.pool, s.cap, s.Slots(), core, [],
                Eligible(c.pool, core, Window(c.pool.order, s.slateSize), true), true, FreshPass(c, s, core), i, k);
  }

  lemma FamiliarInOrder(c: Candidates, s: Settings, core: seq<nat>, i: nat, k: nat)
    requires c.Valid() && s.slateSize > 0 && Picks(c.pool, core)
    requires i < |c.pool.genres| && k < |c.pool.genres| && c.pool.genres[i] == c.pool.genres[k]
    requires Before(Eligible(c.pool, core, Window(c.pool.order, s.slateSize), false), i, k)
    requires k in Exploration(c, s, core)
    ensures i in Exploration(c, s, core)
  {
    SecondFits(c, s, core);
    PassInOrder(c.pool, s.cap, s.Slots(), core, FreshPass(c, s, core),
                Eligible(c.pool, core, Window(c.pool.order, s.slateSize), false), false, Exploration(c, s, core), i, k);
  }

  lemma ExploredFacts(c: Candidates, s: Settings, core: seq<nat>, i: nat)
    requires c.Valid() && s.slateSize > 0 && Picks(c.pool, core) && i in Exploration(c, s, core)
    ensures i < |c.pool.votes| && c.pool.votes[i] >= 6.8 && i !in core
  {
    ExplorationMeaning(c, s, core, s.Slots(), i);
  }

  lemma BothEligible(pool: Pool, size: nat, core: seq<nat>, p: nat, q: nat, i: nat, k: nat, unseen: bool)
    requires pool.Valid() && size <= p < q < 5 * size && q < |pool.order|
    requires i == pool.order[p] && i !in core && pool.votes[i] >= 6.8
    requires k == pool.order[q] && k !in core && pool.votes[k] >= 6.8
    requires unseen == (GenreCount(pool, core, pool.genres[i]) == 0)
    requires unseen == (GenreCount(pool, core, pool.genres[k]) == 0)
    ensures Before(Eligible(pool, core, Window(pool.order, size), unseen), i, k)
  {
    WindowEligible(pool, size, core, p, i, unseen);
    WindowEligible(pool, size, core, q, k, unseen);
    EligiblePair(pool, core, Window(pool.order, size), unseen, p - size, q - size, i, k);
  }

  lemma WindowFits(pool: Pool, size: nat)
    requires pool.Valid()
    ensures FitsPool(pool, Window(pool.order, size))
  {
    WindowFacts(pool.order, size);
    assert forall x | 0 <= x < |Window(pool.order, size)| :: Window(pool.order, size)[x] in pool.order;
  }

  lemma BeforeExplored(c: Candidates, s: Settings, core: seq<nat>, i: nat, k: nat)
    requires c.Valid() && s.slateSize > 0 && Picks(c.pool, core)
    requires i < |c.pool.genres| && k < |c.pool.genres| && c.pool.genres[i] == c.pool.genres[k]
    requires Before(Eligible(c.pool, core, Window(c.pool.order, s.slateSize),
                             GenreCount(c.pool, core, c.pool.genres[k]) == 0), i, k)
    requires k in Exploration(c, s, core)
    ensures i in Exploration(c, s, core)
  {
    if GenreCount(c.pool, core, c.pool.genres[k]) == 0 {
      FreshInOrder(c, s, core, i, k);
    } else {
      FamiliarInOrder(c, s, core, i, k);
    }
  }

  /** Of two titles of one genre behind the slate, both rated 6.8 or better, the better placed one is explored first. */
  lemma ExplorationInOrder(c: Candidates, s: Settings, core: seq<nat>, p: nat, q: nat)
    requires c.Valid() && s.slateSize > 0 && Picks(c.pool, core)
    requires InWindow(s, p) && InWindow(s, q) && p < q < |c.pool.order|
    requires c.pool.genres[c.pool.order[p]] == c.pool.genres[c.pool.order[q]]
    requires c.pool.order[p] !in core && c.pool.votes[c.pool.order[p]] >= 6.8
    requires c.pool.order[q] in Exploration(c, s, core)
    ensures c.pool.order[p] in Exploration(c, s, core)
  {
    ExploredFacts(c, s, core, c.pool.order[q]);
    var i, k := c.pool.order[p], c.pool.order[q];
    BothEligible(c.pool, s.slateSize, core, p, q, i, k, GenreCount(c.pool, core, c.pool.genres[k]) == 0);
    BeforeExplored(c, s, core, i, k);
  }

  // ---- Backfill ----

  /** A sweep that takes a candidate had taken every better placed one, unless its genre stood at the cap. */
  lemma {:induction false} SweepFirst(pool: Pool, cap: int, taken: seq<nat>, target: nat, j: nat, a: nat, b: nat)
    requires pool.Valid() && a < b < j <= |pool.order|
    requires pool.order[b] !in taken && pool.order[b] in Sweep(pool, cap, taken, target, j)
    ensures var t := Sweep(pool, cap, taken, target, j);
            pool.order[a] in t || GenreCount(pool, t, pool.genres[pool.order[a]]) >= cap
    decreases j
  {
    var t, i := Sweep(pool, cap, taken, target, j - 1), pool.order[j - 1];
    SweepFrom(pool, cap, taken, target, j - 1);
    if b < j - 1 {
      assert pool.order[b] in t;
      SweepFirst(pool, cap, taken, target, j - 1, a, b);
      if |t| < target && i !in t && GenreCount(pool, t, pool.genres[i]) < cap {
        CountAppend(pool, t, i);
      }
    } else {
      assert i !in t;
      SweepSkips(pool, cap, taken, target, j - 1, a);
      CountAppend(pool, t, i);
    }
  }

  lemma {:induction false} SweepFrom(pool: Pool, cap: int, taken: seq<nat>, target: nat, j: nat)
    requires pool.Valid() && j <= |pool.order|
    ensures taken <= Sweep(pool, cap, taken, target, j)
    ensures forall i | i in Sweep(pool, cap, taken, target, j) :: i in taken || i in pool.order[..j]
  {
    if j > 0 {
      SweepFrom(pool, cap, taken, target, j - 1);
      assert pool.order[..j] == pool.order[..j - 1] + [pool.order[j - 1]];
    }
  }

  /** Within one genre a sweep takes the better placed candidate first. */
  lemma {:induction false} SweepInOrder(pool: Pool, cap: int, taken: seq<nat>, target: nat, j: nat, a: nat, b: nat)
    requires pool.Valid() && a < b < j <= |pool.order|
    requires pool.genres[pool.order[a]] == pool.genres[pool.order[b]]
    requires pool.order[b] !in taken && pool.order[b] in Sweep(pool, cap, taken, target, j)
    ensures pool.order[a] in Sweep(pool, cap, taken, target, j)
    decreases j
  {
    SweepFrom(pool, cap, taken, target, j - 1);
    if b < j - 1 {
      assert pool.order[b] in Sweep(pool, cap, taken, target, j - 1);
      SweepInOrder(pool, cap, taken, target, j - 1, a, b);
    } else {
      assert pool.order[b] !in Sweep(pool, cap, taken, target, j - 1);
      SweepSkips(pool, cap, taken, target, j - 1, a);
    }
  }

  /** Within one genre the backfill takes the better placed candidate first, whatever caps it went through. */
  lemma {:induction false} BackfillInOrder(pool: Pool, cap: int, taken: seq<nat>, target: nat, a: nat, b: nat)
    requires pool.Valid() && Picks(pool, taken) && a < b < |pool.order|
    requires pool.genres[pool.order[a]] == pool.genres[pool.order[b]]
    requires pool.order[b] !in taken && pool.order[b] in Fill(pool, cap, taken, target)
    ensures pool.order[a] in Fill(pool, cap, taken, target)
    decreases if |taken| >= target || |taken| >= |pool.order| then 0 else 1 + Max(|pool.order| + 1 - cap, 0)
  {
    var t := Sweep(pool, cap, taken, target, |pool.order|);
    SweepPicks(pool, cap, taken, target, |pool.order|);
    SweepHighCap(pool, cap, taken, target);
    if pool.order[b] in t {
      SweepInOrder(pool, cap, taken, target, |pool.order|, a, b);
      FillGrows(pool, cap + 1, t, target);
    } else {
      BackfillInOrder(pool, cap + 1, t, target, a, b);
    }
  }

  lemma FillGrows(pool: Pool, cap: int, taken: seq<nat>, target: nat)
    requires pool.Valid() && Picks(pool, taken) && |taken| <= target
    ensures taken <= Fill(pool, cap, taken, target)
  {
    FillSize(pool, cap, taken, target);
  }

  // ---- Spreading ----

  /** Each exploration title gets an equal share of the others in front of it, as large as fits. */
  lemma StepMeaning(main: nat, extra: nat)
    ensures main > extra ==> Step(main, extra) * (extra + 1) <= main < (Step(main, extra) + 1) * (extra + 1)
    ensures main <= extra ==> Step(main, extra) == 1
  {
    if main > extra {
      ShareFits(main, extra + 1);
    } else {
      assert main / (extra + 1) == 0;
    }
  }

  lemma ShareFits(main: nat, parts: nat)
    requires parts >= 1 && main >= parts
    ensures var q := main / parts; q >= 1 && q * parts <= main < (q + 1) * parts
  {
    var q := main / parts;
    assert main == q * parts + main % parts;
  }

  // ---- What ranking is given ----

  /** Every pool title enters with its own genre, rating, score and vector, in the order of the scores. */
  lemma ScoredMeaning(pool: seq<RankTitles.Title>, numerics: RankTitles.Numerics, a: nat)
    requires numerics.Valid() && a < |pool|
    ensures var c := RankTitles.Scored(pool, numerics);
            && |c.scores| == |pool| && c.scores == numerics.score(pool)
            && c.pool.genres[a] == pool[a].genre && c.pool.votes[a] == pool[a].voteAverage
            && c.unit[a] == UnitRow(if pool[a].embedding.Some? then pool[a].embedding.value else [],
                                    Dimension(RankTitles.Embeddings(pool)), numerics.norm)
    ensures |RankTitles.Embeddings(pool)| == |pool|
            && (pool[a].embedding.Some? ==> RankTitles.Embeddings(pool)[a] == pool[a].embedding.value)
  {}

  lemma ScoredOrder(pool: seq<RankTitles.Title>, numerics: RankTitles.Numerics, a: nat, b: nat)
    requires numerics.Valid() && a < b < |pool|
    ensures var c := RankTitles.Scored(pool, numerics);
            var i, j := c.pool.order[a], c.pool.order[b];
            && i < |pool| && j < |pool| && i != j
            && (c.scores[i] > c.scores[j] || (c.scores[i] == c.scores[j] && i < j))
  {
    var c := RankTitles.Scored(pool, numerics);
    assert Precedes(Negated(c.scores), c.pool.order[a], c.pool.order[b]);
  }

  /** A configured cap is used as given, the default one is made for the slate. */
  lemma CapMeaning(cap: int, slateSize: int)
    ensures RankTitles.CapOf(Some(cap), slateSize) == cap
    ensures RankTitles.CapOf(None, slateSize) >= 3
    ensures slateSize >= 9 ==> -2 <= 5 * RankTitles.CapOf(None, slateSize) - 2 * slateSize <= 2
  {}
}
