/** What the signal weights say and how they age (taste_signals.py). */
module SignalMeaning {
  import opened Basics
  import opened TasteSignals

  // ---- What the weights say ----

  /** Likes outweigh doubts, stronger words weigh more, and exactly the kinds without a taste weight nothing. */
  lemma PolicyOrder()
    ensures PolicyOf(Rate4).weight > PolicyOf(WatchedLiked).weight > PolicyOf(Rate3).weight == PolicyOf(Like).weight
    ensures PolicyOf(Like).weight > PolicyOf(Watchlist).weight > PolicyOf(Rate2).weight > PolicyOf(Watched).weight
    ensures PolicyOf(Watched).weight > PolicyOf(Mid).weight > PolicyOf(View).weight > 0.0 > PolicyOf(Skip).weight
    ensures PolicyOf(Skip).weight > PolicyOf(NotInterested).weight > PolicyOf(Dislike).weight
    ensures PolicyOf(Dislike).weight > PolicyOf(Rate1).weight > PolicyOf(WatchedDisliked).weight >= -1.0
    ensures PolicyOf(Rate4).weight == 1.55 && PolicyOf(Like).weight == 1.0
  {}

  /** The state an event leaves the title in agrees with the sign of its weight, and the tier with how it was given. */
  lemma PolicyAgrees(k: EventKind)
    requires Supported(k)
    ensures PolicyOf(k).updatesTaste <==> PolicyOf(k).weight != 0.0
    ensures PolicyOf(k).updatesTaste <==> Abs(PolicyOf(k).weight) >= 0.05
    ensures PolicyOf(k).tier == 0 <==> !PolicyOf(k).updatesTaste
    ensures PolicyOf(k).tier == 1 <==> k in {Skip, View}
    ensures PolicyOf(k).tier == 2 <==> k in {Watchlist, Watched}
    ensures PolicyOf(k).state.None? <==> k in {Skip, View}
    ensures PolicyOf(k).state == Some(InLike) ==> PolicyOf(k).weight >= 1.0 && PolicyOf(k).tier == 3
    ensures PolicyOf(k).state == Some(InDislike) ==> PolicyOf(k).weight <= -0.85 && PolicyOf(k).tier == 3
    ensures PolicyOf(k).excludes <==> PolicyOf(k).updatesTaste && PolicyOf(k).state.Some?
    ensures PolicyOf(k).state == Some(InLike) <==> k in {Rate3, Rate4, Like, WatchedLiked}
    ensures PolicyOf(k).state == Some(InDislike) <==> k in {Rate1, Dislike, WatchedDisliked}
    ensures PolicyOf(k).state == Some(InRated) <==> k in {Rate2, Mid}
    ensures PolicyOf(k).state == Some(InWatchlist) <==> k == Watchlist
    ensures PolicyOf(k).state == Some(InWatched) <==> k == Watched
    ensures PolicyOf(k).state == Some(InNotInterested) <==> k == NotInterested
    ensures PolicyOf(k).state == Some(InHaventSeen) <==> k == HaventSeen
    ensures PolicyOf(k).state == Some(InNone) <==> k == Clear
    ensures PolicyOf(k).isRating <==> k in {Rate1, Rate2, Mid, Rate3, Rate4}
  {}

  // ---- Which event stands ----

  /** An event that says something about taste and was not cleared since. */
  ghost predicate Stands(events: seq<Event>, i: nat) {
    && i < |events|
    && Supported(events[i].kind)
    && PolicyOf(events[i].kind).updatesTaste
    && (events[i].weight >= 0.000000001 || events[i].weight <= -0.000000001)
    && forall j | 0 <= j < |events| && events[j].kind == Clear && events[j].title == events[i].title ::
         events[j].at < events[i].at
  }

  /** A title has a signal exactly when one of its events stands. It is the signal of one of highest tier, of those the
      newest, and of equally new ones the last in the log. */
  lemma SignalStands(events: seq<Event>, d: Decay, out: map<int, Signal>, t: int) returns (i: nat)
    requires IsFold(events, d, out)
    ensures t in out <==> exists j: nat :: Stands(events, j) && events[j].title == t
    ensures t in out ==> Stands(events, i) && events[i].title == t
    ensures t in out ==> out[t].title == t && out[t].kind == events[i].kind && out[t].rawWeight == events[i].weight
                         && out[t].at == events[i].at
    ensures t in out ==> forall j: nat | Stands(events, j) && events[j].title == t ::
              var best, other := PolicyOf(events[i].kind).tier, PolicyOf(events[j].kind).tier;
              && other <= best
              && (other == best ==> events[j].at <= events[i].at)
              && (other == best && events[j].at == events[i].at ==> j <= i)
  {
    i := 0;
    assert forall j: nat :: Stands(events, j) <==> TasteSignals.Counts(events, j);
    if t in out {
      i :| Wins(events, i) && events[i].title == t && out[t] == SignalOf(events[i], d);
      forall j: nat | Stands(events, j) && events[j].title == t
        ensures Beats(events, i, j)
      {
        assert TasteSignals.Counts(events, j);
      }
    }
  }

  // ---- Half-life ----

  ghost predicate Aged(weight: real, raw: real, factor: real) {
    weight == raw * factor
  }

  /** `age` half-lives pass in `time`. */
  ghost predicate Lasts(age: real, time: real, halfLife: real) {
    halfLife > 0.0 && age == time / halfLife
  }

  lemma SignalAged(e: Event, now: real, halfLife: real, pow: real -> real, age: real)
    requires halfLife > 0.0 && Lasts(age, if e.at <= now then now - e.at else 0.0, halfLife)
    ensures Aged(SignalOf(e, Decay(Some(now), Some(halfLife), pow)).weight, e.weight, pow(age))
  {}

  /** Read at `now`, a signal weighs its raw weight times the factor of its age in half-lives; one dated ahead of the
      clock counts as brand new. */
  lemma FoldWeight(events: seq<Event>, now: real, halfLife: real, pow: real -> real, out: map<int, Signal>, t: int)
    requires halfLife > 0.0 && t in out && IsFold(events, Decay(Some(now), Some(halfLife), pow), out)
    ensures out[t].weight
            == out[t].rawWeight * pow(if out[t].at <= now then (now - out[t].at) / halfLife else 0.0)
  {
    var i: nat :| Wins(events, i) && events[i].title == t
                  && out[t] == SignalOf(events[i], Decay(Some(now), Some(halfLife), pow));
    SignalWeight(events[i], now, halfLife, pow);
  }

  lemma SignalWeight(e: Event, now: real, halfLife: real, pow: real -> real)
    requires halfLife > 0.0
    ensures var s := SignalOf(e, Decay(Some(now), Some(halfLife), pow));
            s.weight == s.rawWeight * pow(if s.at <= now then (now - s.at) / halfLife else 0.0)
  {
    NoAge(halfLife);
  }

  lemma NoAge(halfLife: real)
    requires halfLife > 0.0
    ensures Lasts(0.0, 0.0, halfLife)
  {}

  /** `pow` halves with every unit, as x -> 0.5 ** x does. */
  ghost predicate Halves(pow: real -> real) {
    forall x | x >= 0.0 :: pow(x + 1.0) == pow(x) / 2.0
  }

  /** One half-life later the same log gives the same signals at half their weight. */
  lemma HalfLifeHalves(events: seq<Event>, now: real, halfLife: real, pow: real -> real,
                       a: map<int, Signal>, b: map<int, Signal>, t: int)
    requires halfLife > 0.0 && Halves(pow)
    requires IsFold(events, Decay(Some(now), Some(halfLife), pow), a)
    requires IsFold(events, Decay(Some(now + halfLife), Some(halfLife), pow), b)
    requires t in a && a[t].at <= now
    ensures t in b && b[t].kind == a[t].kind && b[t].at == a[t].at && b[t].rawWeight == a[t].rawWeight
    ensures b[t].weight == a[t].weight / 2.0
  {
    var i := SameUnderAnyClock(events, Decay(Some(now), Some(halfLife), pow),
                               Decay(Some(now + halfLife), Some(halfLife), pow), a, b, t);
    SignalHalves(events[i], now, halfLife, pow);
  }

  /** The clock changes no choice: whatever the decay, the same event stands for the title. */
  lemma SameUnderAnyClock(events: seq<Event>, d: Decay, d': Decay, a: map<int, Signal>, b: map<int, Signal>, t: int)
    returns (i: nat)
    requires IsFold(events, d, a) && IsFold(events, d', b) && t in a
    ensures i < |events| && t in b && a[t] == SignalOf(events[i], d) && b[t] == SignalOf(events[i], d')
  {
    i :| Wins(events, i) && events[i].title == t && a[t] == SignalOf(events[i], d);
    assert t in b;
    var j: nat :| Wins(events, j) && events[j].title == t && b[t] == SignalOf(events[j], d');
    assert Beats(events, i, j) && Beats(events, j, i);
  }

  lemma SignalHalves(e: Event, now: real, halfLife: real, pow: real -> real)
    requires halfLife > 0.0 && Halves(pow) && e.at <= now
    ensures SignalOf(e, Decay(Some(now + halfLife), Some(halfLife), pow)).weight
            == SignalOf(e, Decay(Some(now), Some(halfLife), pow)).weight / 2.0
  {
    var age := OneMore(now - e.at, halfLife);
    SignalAged(e, now, halfLife, pow, age);
    assert now - e.at + halfLife == now + halfLife - e.at;
    SignalAged(e, now + halfLife, halfLife, pow, age + 1.0);
    Halved(SignalOf(e, Decay(Some(now), Some(halfLife), pow)).weight,
           SignalOf(e, Decay(Some(now + halfLife), Some(halfLife), pow)).weight, e.weight, pow, age);
  }

  lemma Halved(weight: real, later: real, raw: real, pow: real -> real, age: real)
    requires Halves(pow) && age >= 0.0 && Aged(weight, raw, pow(age)) && Aged(later, raw, pow(age + 1.0))
    ensures later == weight / 2.0
  {
    HalfOf(weight, later, raw, pow(age), pow(age + 1.0));
  }

  lemma OneMore(time: real, halfLife: real) returns (age: real)
    requires halfLife > 0.0 && time >= 0.0
    ensures age >= 0.0 && Lasts(age, time, halfLife) && Lasts(age + 1.0, time + halfLife, halfLife)
  {
    age := time / halfLife;
    NonNegativeQuotient(time, halfLife);
    assert age * halfLife == time;
    DividesOnce(time + halfLife, halfLife, age + 1.0);
  }

  lemma NonNegativeQuotient(x: real, y: real)
    requires x >= 0.0 && y > 0.0
    ensures x / y >= 0.0
  {}

  lemma DividesOnce(x: real, y: real, q: real)
    requires y > 0.0 && q * y == x
    ensures x / y == q
  {}

  lemma HalfOf(weight: real, later: real, raw: real, factor: real, aged: real)
    requires Aged(weight, raw, factor) && Aged(later, raw, aged) && aged == factor / 2.0
    ensures later == weight / 2.0
  {}
}
