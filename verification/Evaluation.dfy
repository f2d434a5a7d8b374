/** Offline evaluation (evaluation.py): rank for each user with the training titles excluded, then average NDCG. */
module Evaluation {
  import opened Basics
  import TasteSignals
  import opened Slate
  import opened ExplorationLaws
  import opened RankTitles
  import opened Ndcg
  import NdcgLaws
  import opened Sums

  /** `gains` is empty when only the positive titles are known. */
  datatype EvalUser = EvalUser(train: seq<TasteSignals.Event>, positives: seq<int>, gains: seq<Gain>) {
    ghost predicate Valid() {
      Distinct(positives) && ValidGains(gains)
    }

    function Relevance(): Relevance {
      if gains != [] then Graded(gains) else Binary(positives)
    }
  }

  /** `numerics` is the score blend under the profile built from a user's training events. */
  datatype Strategy = Strategy(
    lambda: real, explorationSlots: int, maxPerGenre: Option<int>, numerics: seq<TasteSignals.Event> -> Numerics)
  {
    ghost predicate Valid() {
      forall events :: numerics(events).Valid()
    }

    function SettingsFor(k: int): Settings {
      Settings(k, lambda, explorationSlots, CapOf(maxPerGenre, k))
    }
  }

  function Seen(events: seq<TasteSignals.Event>): set<int> {
    set e | e in events :: e.title
  }

  function PoolFor(user: EvalUser, titles: seq<Title>): seq<Title> {
    PoolOf(titles, Seen(user.train))
  }

  /** `ids` are the pool titles at the places of `final`, which is a ranking of the pool. */
  ghost predicate ShownAt(user: EvalUser, titles: seq<Title>, k: int, s: Strategy, final: seq<nat>, ids: seq<int>)
    requires s.Valid()
  {
    var pool := PoolFor(user, titles);
    && |ids| == |final|
    && (forall a | 0 <= a < |ids| :: final[a] < |pool| && ids[a] == pool[final[a]].id)
    && Ranked(Scored(pool, s.numerics(user.train)), s.SettingsFor(k), final)
  }

  /** What the production ranker recommends to a user. */
  ghost predicate Recommends(user: EvalUser, titles: seq<Title>, k: int, s: Strategy, ids: seq<int>)
    requires s.Valid()
  {
    if k <= 0 || PoolFor(user, titles) == [] then ids == [] else exists final :: ShownAt(user, titles, k, s, final, ids)
  }

  /** There is exactly one such recommendation. */
  lemma RecommendsUnique(user: EvalUser, titles: seq<Title>, k: int, s: Strategy, a: seq<int>, b: seq<int>)
    requires s.Valid() && Recommends(user, titles, k, s, a) && Recommends(user, titles, k, s, b)
    ensures a == b
  {
    if !(k <= 0 || PoolFor(user, titles) == []) {
      var c, settings := Scored(PoolFor(user, titles), s.numerics(user.train)), s.SettingsFor(k);
      var f :| ShownAt(user, titles, k, s, f, a);
      var g :| ShownAt(user, titles, k, s, g, b);
      RankedUnique(c, settings, f, g);
    }
  }

  lemma RankedUnique(c: Candidates, s: Settings, f: seq<nat>, g: seq<nat>)
    requires Ranked(c, s, f) && Ranked(c, s, g)
    ensures f == g
  {
    var core, exploration, backfill :| IsRanking(c, s, core, exploration, backfill, f);
    var core', exploration', backfill' :| IsRanking(c, s, core', exploration', backfill', g);
    RankingUnique(c, s, core, exploration, backfill, f, core', exploration', backfill', g);
  }

  function TitleIds(items: seq<RankedItem>): seq<int> {
    seq(|items|, a requires 0 <= a < |items| => items[a].titleId)
  }

  lemma PresentedShown(user: EvalUser, titles: seq<Title>, k: int, s: Strategy, final: seq<nat>, items: seq<RankedItem>)
    requires s.Valid()
    requires Presents(PoolFor(user, titles), s.numerics(user.train).score(PoolFor(user, titles)), final, items)
    requires Ranked(Scored(PoolFor(user, titles), s.numerics(user.train)), s.SettingsFor(k), final)
    ensures ShownAt(user, titles, k, s, final, TitleIds(items))
  {}

  /** Recommendations are distinct and never leak a training title, so every held-out score is well defined. */
  method Recommend(user: EvalUser, titles: seq<Title>, k: int, s: Strategy) returns (ids: seq<int>)
    requires s.Valid()
    ensures Recommends(user, titles, k, s, ids)
    ensures Distinct(ids) && |ids| == Min(Max(k, 0), |PoolFor(user, titles)|)
    ensures forall id | id in ids :: id !in Seen(user.train) && exists t :: t in titles && t.id == id
  {
    var items, final := RankTitles.Rank(titles, Seen(user.train), k, s.lambda, s.explorationSlots, s.maxPerGenre,
                                        s.numerics(user.train));
    ids := TitleIds(items);
    if items != [] {
      PresentedShown(user, titles, k, s, final, items);
    }
    IdsComeFromPool(user, titles, final, ids);
  }

  lemma IdsComeFromPool(user: EvalUser, titles: seq<Title>, final: seq<nat>, ids: seq<int>)
    requires |ids| == |final|
    requires forall a | 0 <= a < |ids| ::
               final[a] < |PoolFor(user, titles)| && ids[a] == PoolFor(user, titles)[final[a]].id
    ensures forall id | id in ids :: id !in Seen(user.train) && exists t :: t in titles && t.id == id
  {
    PoolMeaning(titles, Seen(user.train));
    forall id | id in ids
      ensures id !in Seen(user.train) && exists t :: t in titles && t.id == id
    {
      var a :| 0 <= a < |ids| && ids[a] == id;
      var t := PoolFor(user, titles)[final[a]];
      assert t in PoolFor(user, titles) && t.id == id;
    }
  }

  /** One user's score is a proportion, because ranking discharges the distinctness NDCG needs. */
  method UserNdcg(user: EvalUser, titles: seq<Title>, k: int, s: Strategy, d: nat -> real)
    returns (score: real, ghost ids: seq<int>)
    requires s.Valid() && user.Valid() && ValidDiscount(d)
    ensures Recommends(user, titles, k, s, ids) && score == NdcgAtK(ids, user.Relevance(), k, d)
    ensures 0.0 <= score <= 1.0
  {
    var slate := Recommend(user, titles, k, s);
    NdcgBounded(slate, user.Relevance(), k, d);
    score := NdcgAtK(slate, user.Relevance(), k, d);
    ids := slate;
  }

  lemma MeanBounded(total: real, count: nat)
    requires count > 0 && 0.0 <= total <= count as real
    ensures 0.0 <= total / count as real <= 1.0
  {
    RatioBounded(total, count as real);
  }

  /** Users without held-out positives are skipped. */
  function Judged(users: seq<EvalUser>): (r: seq<EvalUser>)
    ensures r == [] <==> forall u | u in users :: u.positives == []
  {
    if users == [] then []
    else
      var front, last := users[..|users| - 1], users[|users| - 1];
      assert users == front + [last];
      if last.positives == [] then Judged(front) else Judged(front) + [last]
  }

  /** Sum of the scores of the users for their slates. */
  function ScoreSum(users: seq<EvalUser>, slates: seq<seq<int>>, k: int, d: nat -> real): real
    requires |users| == |slates|
  {
    if users == [] then 0.0
    else
      var n := |users| - 1;
      ScoreSum(users[..n], slates[..n], k, d) + NdcgAtK(slates[n], users[n].Relevance(), k, d)
  }

  /** The slates are what the ranker recommends to the users, one each. */
  ghost predicate Served(users: seq<EvalUser>, titles: seq<Title>, k: int, s: Strategy, slates: seq<seq<int>>)
    requires s.Valid()
  {
    |slates| == |users| && forall i | 0 <= i < |users| :: Recommends(users[i], titles, k, s, slates[i])
  }

  /** The loop over the users seen so far: one slate per judged user, their total score, and its bound. */
  ghost predicate Tallied(users: seq<EvalUser>, titles: seq<Title>, k: int, s: Strategy, d: nat -> real,
                          slates: seq<seq<int>>, total: real)
    requires s.Valid()
  {
    && Served(Judged(users), titles, k, s, slates)
    && total == ScoreSum(Judged(users), slates, k, d)
    && 0.0 <= total <= |slates| as real
  }

  lemma ServedNext(users: seq<EvalUser>, u: EvalUser, titles: seq<Title>, k: int, s: Strategy,
                   slates: seq<seq<int>>, ids: seq<int>)
    requires s.Valid() && Served(users, titles, k, s, slates) && Recommends(u, titles, k, s, ids)
    ensures Served(users + [u], titles, k, s, slates + [ids])
  {}

  lemma ScoreNext(users: seq<EvalUser>, u: EvalUser, slates: seq<seq<int>>, ids: seq<int>, k: int, d: nat -> real)
    requires |users| == |slates|
    ensures ScoreSum(users + [u], slates + [ids], k, d)
            == ScoreSum(users, slates, k, d) + NdcgAtK(ids, u.Relevance(), k, d)
  {
    assert (users + [u])[..|users|] == users && (slates + [ids])[..|users|] == slates;
  }

  lemma JudgedNext(users: seq<EvalUser>, u: EvalUser)
    ensures Judged(users + [u]) == if u.positives == [] then Judged(users) else Judged(users) + [u]
  {
    assert (users + [u])[..|users|] == users;
  }

  lemma TalliedNext(users: seq<EvalUser>, u: EvalUser, titles: seq<Title>, k: int, s: Strategy, d: nat -> real,
                    slates: seq<seq<int>>, total: real, ids: seq<int>, score: real)
    requires s.Valid() && Tallied(users, titles, k, s, d, slates, total) && u.positives != []
    requires Recommends(u, titles, k, s, ids) && score == NdcgAtK(ids, u.Relevance(), k, d) && 0.0 <= score <= 1.0
    ensures Tallied(users + [u], titles, k, s, d, slates + [ids], total + score)
  {
    JudgedNext(users, u);
    ServedNext(Judged(users), u, titles, k, s, slates, ids);
    ScoreNext(Judged(users), u, slates, ids, k, d);
  }

  /** The mean score over users with held-out positives; `None` when there is none. */
  method EvaluateNdcg(users: seq<EvalUser>, titles: seq<Title>, k: int, s: Strategy, d: nat -> real)
    returns (mean: Option<real>, ghost slates: seq<seq<int>>)
    requires s.Valid() && ValidDiscount(d) && forall u | u in users :: u.Valid()
    ensures mean.None? <==> forall u | u in users :: u.positives == []
    ensures Served(Judged(users), titles, k, s, slates)
    ensures mean.Some? ==> mean.value == ScoreSum(Judged(users), slates, k, d) / |slates| as real
    ensures mean.Some? ==> 0.0 <= mean.value <= 1.0
  {
    var total := 0.0;
    var count: nat := 0;
    slates := [];
    for n := 0 to |users|
      invariant Tallied(users[..n], titles, k, s, d, slates, total) && count == |slates|
    {
      assert users[..n + 1] == users[..n] + [users[n]];
      if users[n].positives == [] {
        JudgedNext(users[..n], users[n]);
      } else {
        var score: real;
        ghost var ids;
        score, ids := UserNdcg(users[n], titles, k, s, d);
        TalliedNext(users[..n], users[n], titles, k, s, d, slates, total, ids, score);
        total, count, slates := total + score, count + 1, slates + [ids];
      }
    }
    assert users[..|users|] == users;
    if count == 0 {
      return None, slates;
    }
    MeanBounded(total, count);
    mean := Some(total / count as real);
  }

  /** Whoever computes it, the mean is the same: the slates behind it are determined. */
  lemma SlatesUnique(users: seq<EvalUser>, titles: seq<Title>, k: int, s: Strategy, a: seq<seq<int>>, b: seq<seq<int>>)
    requires s.Valid() && Served(users, titles, k, s, a) && Served(users, titles, k, s, b)
    ensures a == b
  {
    forall i | 0 <= i < |users|
      ensures a[i] == b[i]
    {
      RecommendsUnique(users[i], titles, k, s, a[i], b[i]);
    }
  }

  /** No recommendation for a user repeats a title of the training events, and every one is an embedded title of the
      catalog. */
  lemma NothingSeenRecommended(user: EvalUser, titles: seq<Title>, k: int, s: Strategy, ids: seq<int>,
                               e: TasteSignals.Event, id: int)
    requires s.Valid() && Recommends(user, titles, k, s, ids) && e in user.train
    ensures e.title !in ids
    ensures id in ids ==> exists t :: t in titles && t.id == id && t.embedding.Some?
  {
    if !(k <= 0 || PoolFor(user, titles) == []) {
      var final :| ShownAt(user, titles, k, s, final, ids);
      PoolMeaning(titles, Seen(user.train));
      forall x | x in ids
        ensures x != e.title && exists t :: t in titles && t.id == x && t.embedding.Some?
      {
        var a :| 0 <= a < |ids| && ids[a] == x;
        var t := PoolFor(user, titles)[final[a]];
        assert t in PoolFor(user, titles) && Usable(t, Seen(user.train));
      }
    }
  }

  /** An unseen, embedded title is only left out when the slate is full. */
  lemma UnseenLeftOut(user: EvalUser, titles: seq<Title>, k: int, s: Strategy, ids: seq<int>, t: Title)
    requires s.Valid() && Recommends(user, titles, k, s, ids) && t in titles && t.embedding.Some?
    requires forall e | e in user.train :: e.title != t.id
    ensures t.id in ids || |ids| >= k
  {
    PoolMeaning(titles, Seen(user.train));
    assert Usable(t, Seen(user.train));
    assert t.id in Ids(PoolFor(user, titles));
    if k > 0 {
      assert PoolFor(user, titles) != [];
      var final :| ShownAt(user, titles, k, s, final, ids);
      WholePoolShown(user, titles, k, s, final, ids, t.id);
    }
  }

  lemma WholePoolShown(user: EvalUser, titles: seq<Title>, k: int, s: Strategy, final: seq<nat>, ids: seq<int>, id: int)
    requires s.Valid() && ShownAt(user, titles, k, s, final, ids) && id in Ids(PoolFor(user, titles))
    ensures id in ids || |ids| >= k
  {
    var pool := PoolFor(user, titles);
    var c, settings := Scored(pool, s.numerics(user.train)), s.SettingsFor(k);
    var core, exploration, backfill :| IsRanking(c, settings, core, exploration, backfill, final);
    SlateComplete(c, settings, core, exploration, backfill, final);
    if |ids| < k {
      var a :| 0 <= a < |pool| && Ids(pool)[a] == id;
      AllShown(final, |pool|, a);
      var x :| 0 <= x < |final| && final[x] == a;
      assert ids[x] == pool[a].id;
    }
  }

  lemma AllShown(final: seq<nat>, n: nat, a: nat)
    requires Distinct(final) && Within(Elems(final), n) && |final| == n && a < n
    ensures a in final
  {
    DistinctSize(final);
    IntervalSize(Elems(final) + {a}, 0, n);
    assert a !in final ==> |Elems(final) + {a}| == n + 1;
  }

  /** A positive is judged by its grade when grades are known, as one hit otherwise, and anything else gains nothing. */
  lemma RelevanceMeaning(user: EvalUser, id: int)
    requires user.Valid()
    ensures user.gains == [] ==>
              GainOf(user.Relevance().Gains(), id) == if id in user.positives then 1.0 else 0.0
    ensures user.gains != [] ==> forall x | x in user.gains :: GainOf(user.Relevance().Gains(), x.id) == x.gain
    ensures user.gains != [] && (forall x | x in user.gains :: x.id != id) ==>
              GainOf(user.Relevance().Gains(), id) == 0.0
  {
    NdcgLaws.GainsMeaning(user.Relevance(), id);
  }

  /** Every user with held-out positives is judged as often as listed, and nobody else. */
  lemma {:induction false} JudgedMeaning(users: seq<EvalUser>, u: EvalUser)
    ensures multiset(Judged(users))[u] == if u.positives == [] then 0 else multiset(users)[u]
  {
    if users != [] {
      var front, last := users[..|users| - 1], users[|users| - 1];
      assert users == front + [last];
      JudgedMeaning(front, u);
    }
  }
}
