/** Exploration and backfill as functions of the picks so far, and why the backfill is fair (pipeline.py,
    `rank_titles`). */
module SlateFill {
  import opened Basics
  import opened Sums

  /** What the filling stages know about the candidate pool. */
  datatype Pool = Pool(genres: seq<int>, votes: seq<real>, order: seq<nat>) {
    ghost predicate Valid() {
      && |votes| == |order| == |genres|
      && (forall a | 0 <= a < |order| :: order[a] < |genres|)
      && Distinct(order)
      && (forall i: nat | i < |genres| :: i in order)
    }
  }

  ghost function GenreCount(pool: Pool, taken: seq<nat>, g: int): nat {
    |InGroup(Elems(taken), pool.genres, g)|
  }

  ghost predicate Picks(pool: Pool, taken: seq<nat>) {
    Distinct(taken) && Within(Elems(taken), |pool.genres|)
  }

  lemma CountAppend(pool: Pool, taken: seq<nat>, i: nat)
    requires i !in taken && i < |pool.genres|
    ensures forall g :: GenreCount(pool, taken + [i], g)
                        == GenreCount(pool, taken, g) + if pool.genres[i] == g then 1 else 0
  {
    ElemsAppend(taken, i);
    forall g
      ensures GenreCount(pool, taken + [i], g)
              == GenreCount(pool, taken, g) + if pool.genres[i] == g then 1 else 0
    {
      InGroupAdd(Elems(taken), pool.genres, i, g);
    }
  }

  lemma PicksAppend(pool: Pool, taken: seq<nat>, i: nat)
    requires Picks(pool, taken) && i !in taken && i < |pool.genres|
    ensures Picks(pool, taken + [i])
  {
    ElemsAppend(taken, i);
  }

  // ---- Backfill ----

  /** One sweep over the first j candidates in score order under one cap. */
  ghost function Sweep(pool: Pool, cap: int, taken: seq<nat>, target: nat, j: nat): seq<nat>
    requires pool.Valid() && j <= |pool.order|
  {
    if j == 0 then taken
    else
      var t := Sweep(pool, cap, taken, target, j - 1);
      var i := pool.order[j - 1];
      if |t| < target && i !in t && GenreCount(pool, t, pool.genres[i]) < cap then t + [i] else t
  }

  /** Sweeps under ever higher caps until the slate is full or the pool is used up. */
  ghost function Fill(pool: Pool, cap: int, taken: seq<nat>, target: nat): seq<nat>
    requires pool.Valid() && Picks(pool, taken)
    decreases if |taken| >= target || |taken| >= |pool.order| then 0 else 1 + Max(|pool.order| + 1 - cap, 0)
  {
    if |taken| >= target || |taken| >= |pool.order| then taken
    else
      SweepPicks(pool, cap, taken, target, |pool.order|);
      SweepHighCap(pool, cap, taken, target);
      Fill(pool, cap + 1, Sweep(pool, cap, taken, target, |pool.order|), target)
  }

  lemma {:induction false} SweepPicks(pool: Pool, cap: int, taken: seq<nat>, target: nat, j: nat)
    requires pool.Valid() && Picks(pool, taken) && |taken| <= target && j <= |pool.order|
    ensures Picks(pool, Sweep(pool, cap, taken, target, j))
    ensures taken <= Sweep(pool, cap, taken, target, j)
    ensures |Sweep(pool, cap, taken, target, j)| <= target
  {
    if j > 0 {
      SweepPicks(pool, cap, taken, target, j - 1);
      var t := Sweep(pool, cap, taken, target, j - 1);
      var i := pool.order[j - 1];
      if |t| < target && i !in t && GenreCount(pool, t, pool.genres[i]) < cap {
        PicksAppend(pool, t, i);
      }
    }
  }

  /** After a sweep, whatever it passed over is in a genre at the cap (unless the slate filled up). */
  lemma {:induction false} SweepSkips(pool: Pool, cap: int, taken: seq<nat>, target: nat, j: nat, a: nat)
    requires pool.Valid() && a < j <= |pool.order|
    ensures var t := Sweep(pool, cap, taken, target, j);
            pool.order[a] in t || |t| >= target || GenreCount(pool, t, pool.genres[pool.order[a]]) >= cap
    decreases j
  {
    var t := Sweep(pool, cap, taken, target, j - 1);
    var i := pool.order[j - 1];
    if a < j - 1 {
      SweepSkips(pool, cap, taken, target, j - 1, a);
    }
    if |t| < target && i !in t && GenreCount(pool, t, pool.genres[i]) < cap {
      CountAppend(pool, t, i);
    }
  }

  /** A sweep never lowers a count and never lifts one above the cap. */
  lemma {:induction false} SweepCounts(pool: Pool, cap: int, taken: seq<nat>, target: nat, j: nat, g: int)
    requires pool.Valid() && j <= |pool.order|
    ensures GenreCount(pool, taken, g) <= GenreCount(pool, Sweep(pool, cap, taken, target, j), g)
    ensures GenreCount(pool, Sweep(pool, cap, taken, target, j), g) <= Max(GenreCount(pool, taken, g), cap)
  {
    if j > 0 {
      SweepCounts(pool, cap, taken, target, j - 1, g);
      var t := Sweep(pool, cap, taken, target, j - 1);
      var i := pool.order[j - 1];
      if |t| < target && i !in t && GenreCount(pool, t, pool.genres[i]) < cap {
        CountAppend(pool, t, i);
      }
    }
  }

  lemma CountWithinPool(pool: Pool, taken: seq<nat>, g: int)
    requires pool.Valid() && Picks(pool, taken)
    ensures GenreCount(pool, taken, g) <= |taken| <= |pool.order|
  {
    DistinctSize(taken);
    SubsetSize(InGroup(Elems(taken), pool.genres, g), Elems(taken));
    DistinctSize(pool.order);
    SubsetSize(Elems(taken), Elems(pool.order));
  }

  /** A cap above the pool size cannot hold anything back, so the sweep finishes the job. */
  lemma SweepHighCap(pool: Pool, cap: int, taken: seq<nat>, target: nat)
    requires pool.Valid() && Picks(pool, taken) && |taken| <= target
    ensures cap > |pool.order| ==>
              var t := Sweep(pool, cap, taken, target, |pool.order|);
              |t| >= target || |t| >= |pool.order|
  {
    var t := Sweep(pool, cap, taken, target, |pool.order|);
    SweepPicks(pool, cap, taken, target, |pool.order|);
    if cap > |pool.order| && |t| < target {
      forall a: nat | a < |pool.order|
        ensures pool.order[a] in t
      {
        SweepSkips(pool, cap, taken, target, |pool.order|, a);
        CountWithinPool(pool, t, pool.genres[pool.order[a]]);
      }
      DistinctSize(t);
      DistinctSize(pool.order);
      SubsetSize(Elems(pool.order), Elems(t));
    }
  }

  /** The fill ends with the slate full or the pool used up, and keeps what was there. */
  lemma {:induction false} FillSize(pool: Pool, cap: int, taken: seq<nat>, target: nat)
    requires pool.Valid() && Picks(pool, taken) && |taken| <= target
    ensures Picks(pool, Fill(pool, cap, taken, target))
    ensures taken <= Fill(pool, cap, taken, target)
    ensures |Fill(pool, cap, taken, target)| == Min(target, |pool.order|)
    decreases if |taken| >= target || |taken| >= |pool.order| then 0 else 1 + Max(|pool.order| + 1 - cap, 0)
  {
    CountWithinPool(pool, taken, 0);
    if !(|taken| >= target || |taken| >= |pool.order|) {
      SweepPicks(pool, cap, taken, target, |pool.order|);
      SweepHighCap(pool, cap, taken, target);
      FillSize(pool, cap + 1, Sweep(pool, cap, taken, target, |pool.order|), target);
    }
  }

  // ---- Fairness ----

  /** While `cap` is next: counts so far, and how far every genre with candidates left has come. */
  ghost predicate Level(pool: Pool, base: int, start: int, cap: int, taken: seq<nat>, target: nat)
    requires pool.Valid()
  {
    && start <= cap
    && start <= base
    && (forall g :: GenreCount(pool, taken, g) <= Max(base, cap - 1))
    && (cap > start + 1 ==> forall i: nat | i < |pool.genres| && i !in taken ::
          GenreCount(pool, taken, pool.genres[i]) >= cap - 2)
    && (cap > start && |taken| < target ==> forall i: nat | i < |pool.genres| && i !in taken ::
          GenreCount(pool, taken, pool.genres[i]) >= cap - 1)
  }

  /** No genre above the base got another slot while a genre with candidates left lagged by more than one. */
  ghost predicate Fair(pool: Pool, base: int, taken: seq<nat>)
    requires pool.Valid()
  {
    forall g, i: nat | i < |pool.genres| && i !in taken && GenreCount(pool, taken, g) > base ::
      GenreCount(pool, taken, pool.genres[i]) >= GenreCount(pool, taken, g) - 1
  }

  lemma SweepLevel(pool: Pool, base: int, start: int, cap: int, taken: seq<nat>, target: nat)
    requires pool.Valid() && Picks(pool, taken) && |taken| < target
    requires Level(pool, base, start, cap, taken, target)
    ensures Level(pool, base, start, cap + 1, Sweep(pool, cap, taken, target, |pool.order|), target)
  {
    var t := Sweep(pool, cap, taken, target, |pool.order|);
    SweepPicks(pool, cap, taken, target, |pool.order|);
    forall g
      ensures GenreCount(pool, t, g) <= Max(base, cap)
    {
      SweepCounts(pool, cap, taken, target, |pool.order|, g);
    }
    forall i: nat | i < |pool.genres| && i !in t
      ensures cap > start ==> GenreCount(pool, t, pool.genres[i]) >= cap - 1
      ensures |t| < target ==> GenreCount(pool, t, pool.genres[i]) >= cap
    {
      SweepCounts(pool, cap, taken, target, |pool.order|, pool.genres[i]);
      assert i in pool.order;
      var a :| 0 <= a < |pool.order| && pool.order[a] == i;
      SweepSkips(pool, cap, taken, target, |pool.order|, a);
    }
  }

  lemma LevelIsFair(pool: Pool, base: int, start: int, cap: int, taken: seq<nat>, target: nat)
    requires pool.Valid() && Level(pool, base, start, cap, taken, target)
    ensures Fair(pool, base, taken)
  {}

  lemma {:induction false} FillFair(pool: Pool, base: int, start: int, cap: int, taken: seq<nat>, target: nat)
    requires pool.Valid() && Picks(pool, taken) && |taken| <= target
    requires Level(pool, base, start, cap, taken, target)
    ensures Fair(pool, base, Fill(pool, cap, taken, target))
    decreases if |taken| >= target || |taken| >= |pool.order| then 0 else 1 + Max(|pool.order| + 1 - cap, 0)
  {
    if |taken| >= target || |taken| >= |pool.order| {
      LevelIsFair(pool, base, start, cap, taken, target);
    } else {
      FillStep(pool, cap, taken, target);
      SweepLevel(pool, base, start, cap, taken, target);
      FillFair(pool, base, start, cap + 1, Sweep(pool, cap, taken, target, |pool.order|), target);
    }
  }

  /** One sweep of the fill, with what makes the next one smaller. */
  lemma FillStep(pool: Pool, cap: int, taken: seq<nat>, target: nat)
    requires pool.Valid() && Picks(pool, taken) && |taken| < target && |taken| < |pool.order|
    ensures var t := Sweep(pool, cap, taken, target, |pool.order|);
            && Picks(pool, t) && |t| <= target
            && Fill(pool, cap, taken, target) == Fill(pool, cap + 1, t, target)
            && (cap > |pool.order| ==> |t| >= target || |t| >= |pool.order|)
  {
    SweepPicks(pool, cap, taken, target, |pool.order|);
    SweepHighCap(pool, cap, taken, target);
  }

  /** Min-max optimality: if some genre holds c titles, more than the base, then any equally large choice
      of distinct titles puts at least c of them in one genre. */
  lemma FairIsMinMax(pool: Pool, base: int, taken: seq<nat>, g: int, T: set<nat>)
    requires pool.Valid() && Picks(pool, taken) && Fair(pool, base, taken)
    requires GenreCount(pool, taken, g) > base
    requires Within(T, |pool.genres|) && |T| == |taken|
    ensures exists h :: |InGroup(T, pool.genres, h)| >= GenreCount(pool, taken, g)
  {
    var S := Elems(taken);
    var c: int := GenreCount(pool, taken, g);
    DistinctSize(taken);
    if forall h :: |InGroup(T, pool.genres, h)| < c {
      forall h
        ensures |InGroup(T, pool.genres, h)| <= |InGroup(S, pool.genres, h)|
      {
        if |InGroup(S, pool.genres, h)| < c - 1 {
          forall i | i in InGroup(T, pool.genres, h)
            ensures i in InGroup(S, pool.genres, h)
          {
            assert i in taken || GenreCount(pool, taken, pool.genres[i]) >= c - 1;
          }
          SubsetSize(InGroup(T, pool.genres, h), InGroup(S, pool.genres, h));
        }
      }
      assert |InGroup(T, pool.genres, g)| < |InGroup(S, pool.genres, g)|;
      CompareByGroup(T, S, pool.genres);
    }
  }

  // ---- Exploration ----

  /** One pass over the first j candidates: at most one per genre when `distinct`, never above the cap. */
  ghost function Explore(pool: Pool, cap: int, slots: nat, taken: seq<nat>, found: seq<nat>,
                         candidates: seq<nat>, distinct: bool, j: nat): seq<nat>
    requires j <= |candidates|
    requires forall a | 0 <= a < |candidates| :: candidates[a] < |pool.genres|
  {
    if j == 0 then found
    else
      var f := Explore(pool, cap, slots, taken, found, candidates, distinct, j - 1);
      var i := candidates[j - 1];
      if |f| < slots && !(distinct && GenreAmong(pool, f, pool.genres[i]))
         && GenreCount(pool, taken + f, pool.genres[i]) < cap
      then f + [i] else f
  }

  /** Some pick of `found` is of genre g. */
  predicate GenreAmong(pool: Pool, found: seq<nat>, g: int) {
    exists a :: 0 <= a < |found| && found[a] < |pool.genres| && pool.genres[found[a]] == g
  }

  /** The exploration picks f taken over and above `found` satisfy every rule of the pass. */
  lemma {:induction false} ExploreSound(pool: Pool, cap: int, slots: nat, taken: seq<nat>, found: seq<nat>,
                                        candidates: seq<nat>, distinct: bool, j: nat)
    requires pool.Valid() && j <= |candidates| && |found| <= slots
    requires forall a | 0 <= a < |candidates| :: candidates[a] < |pool.genres|
    requires Distinct(candidates) && forall a | 0 <= a < |candidates| :: candidates[a] !in taken + found
    requires Picks(pool, taken + found)
    ensures var f := Explore(pool, cap, slots, taken, found, candidates, distinct, j);
            && found <= f && |f| <= slots
            && Picks(pool, taken + f)
            && (forall i | i in f :: i in found || i in candidates[..j])
  {
    if j > 0 {
      ExploreSound(pool, cap, slots, taken, found, candidates, distinct, j - 1);
      var f := Explore(pool, cap, slots, taken, found, candidates, distinct, j - 1);
      var i := candidates[j - 1];
      assert candidates[..j] == candidates[..j - 1] + [i];
      assert i !in f;
      PicksAppend(pool, taken + f, i);
      assert taken + f + [i] == taken + (f + [i]);
    }
  }

  /** One step keeps the picks or appends a candidate that is new and has room under the cap. */
  lemma ExploreStep(pool: Pool, cap: int, slots: nat, taken: seq<nat>, found: seq<nat>,
                    candidates: seq<nat>, distinct: bool, j: nat)
    requires pool.Valid() && j < |candidates| && |found| <= slots
    requires forall a | 0 <= a < |candidates| :: candidates[a] < |pool.genres|
    requires Distinct(candidates) && forall a | 0 <= a < |candidates| :: candidates[a] !in taken + found
    requires Picks(pool, taken + found)
    ensures var f, x := Explore(pool, cap, slots, taken, found, candidates, distinct, j), candidates[j];
            var f' := Explore(pool, cap, slots, taken, found, candidates, distinct, j + 1);
            && Picks(pool, taken + f) && x !in taken + f
            && (f' == f || (f' == f + [x] && GenreCount(pool, taken + f, pool.genres[x]) < cap))
  {
    ExploreSound(pool, cap, slots, taken, found, candidates, distinct, j);
  }

  lemma CountPick(pool: Pool, taken: seq<nat>, f: seq<nat>, x: nat, g: int)
    requires pool.Valid() && Picks(pool, taken + f) && x < |pool.genres| && x !in taken + f
    ensures GenreCount(pool, taken + (f + [x]), g)
            == GenreCount(pool, taken + f, g) + (if pool.genres[x] == g then 1 else 0)
  {
    CountAppend(pool, taken + f, x);
    assert taken + f + [x] == taken + (f + [x]);
  }

  /** The pass never lifts a genre above the cap. */
  lemma {:induction false} ExploreCapped(pool: Pool, cap: int, slots: nat, taken: seq<nat>, found: seq<nat>,
                                         candidates: seq<nat>, distinct: bool, j: nat, g: int)
    requires pool.Valid() && j <= |candidates| && |found| <= slots
    requires forall a | 0 <= a < |candidates| :: candidates[a] < |pool.genres|
    requires Distinct(candidates) && forall a | 0 <= a < |candidates| :: candidates[a] !in taken + found
    requires Picks(pool, taken + found)
    ensures var f := Explore(pool, cap, slots, taken, found, candidates, distinct, j);
            GenreCount(pool, taken + found, g) <= GenreCount(pool, taken + f, g)
            <= Max(GenreCount(pool, taken + found, g), cap)
  {
    if j > 0 {
      ExploreCapped(pool, cap, slots, taken, found, candidates, distinct, j - 1, g);
      ExploreStep(pool, cap, slots, taken, found, candidates, distinct, j - 1);
      CountPick(pool, taken, Explore(pool, cap, slots, taken, found, candidates, distinct, j - 1),
                candidates[j - 1], g);
    }
  }

  lemma AmongGrows(pool: Pool, f: seq<nat>, f': seq<nat>, g: int)
    requires f <= f'
    ensures GenreAmong(pool, f, g) ==> GenreAmong(pool, f', g)
  {
    if GenreAmong(pool, f, g) {
      var b :| 0 <= b < |f| && f[b] < |pool.genres| && pool.genres[f[b]] == g;
      assert f'[b] == f[b];
    }
  }

  /** Candidate i was taken, or nothing was left for it: no slot, no room under the cap, or its genre shown already. */
  ghost predicate Settled(pool: Pool, cap: int, slots: nat, taken: seq<nat>, f: seq<nat>, distinct: bool, i: nat)
    requires i < |pool.genres|
  {
    || |f| >= slots || i in f
    || GenreCount(pool, taken + f, pool.genres[i]) >= cap
    || (distinct && GenreAmong(pool, f, pool.genres[i]))
  }

  lemma SettledNext(pool: Pool, cap: int, slots: nat, taken: seq<nat>, f: seq<nat>, f': seq<nat>, distinct: bool,
                    x: nat, i: nat)
    requires pool.Valid() && Picks(pool, taken + f) && x < |pool.genres| && x !in taken + f && i < |pool.genres|
    requires f' == f || f' == f + [x]
    requires Settled(pool, cap, slots, taken, f, distinct, i)
    ensures Settled(pool, cap, slots, taken, f', distinct, i)
  {
    CountPick(pool, taken, f, x, pool.genres[i]);
    AmongGrows(pool, f, f + [x], pool.genres[i]);
  }

  /** If slots are left over, everything passed over was barred by the cap or by its genre being shown already. */
  lemma {:induction false} ExploreMaximal(pool: Pool, cap: int, slots: nat, taken: seq<nat>, found: seq<nat>,
                                          candidates: seq<nat>, distinct: bool, j: nat, a: nat)
    requires pool.Valid() && a < j <= |candidates| && |found| <= slots
    requires forall a | 0 <= a < |candidates| :: candidates[a] < |pool.genres|
    requires Distinct(candidates) && forall a | 0 <= a < |candidates| :: candidates[a] !in taken + found
    requires Picks(pool, taken + found)
    ensures var f := Explore(pool, cap, slots, taken, found, candidates, distinct, j);
            || |f| >= slots || candidates[a] in f
            || GenreCount(pool, taken + f, pool.genres[candidates[a]]) >= cap
            || (distinct && GenreAmong(pool, f, pool.genres[candidates[a]]))
    decreases j
  {
    ExploreStep(pool, cap, slots, taken, found, candidates, distinct, j - 1);
    if a < j - 1 {
      ExploreMaximal(pool, cap, slots, taken, found, candidates, distinct, j - 1, a);
      SettledNext(pool, cap, slots, taken, Explore(pool, cap, slots, taken, found, candidates, distinct, j - 1),
                  Explore(pool, cap, slots, taken, found, candidates, distinct, j), distinct,
                  candidates[j - 1], candidates[a]);
    }
  }
}
