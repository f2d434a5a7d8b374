/** The signal policy and the fold of an append-only event log into one signal per title (taste_signals.py). */
module TasteSignals {
  import opened Basics
  import opened Sorting

  datatype EventKind =
    | Rate1 | Rate2 | Mid | Rate3 | Rate4
    | HaventSeen | NotInterested | Watchlist | Like | Dislike
    | Clear | Skip | View
    | Watched | WatchedLiked | WatchedDisliked
    | Unsupported(name: string)

  datatype TitleState =
    | InDislike | InRated | InLike | InHaventSeen | InNotInterested | InWatchlist | InWatched | InNone

  /** opinion 3, intent 2, implicit 1, none 0. */
  type Tier = t: nat | t <= 3

  datatype Policy = Policy(weight: real, tier: Tier, updatesTaste: bool, state: Option<TitleState>,
                           excludes: bool, isRating: bool)

  predicate Supported(k: EventKind) {
    !k.Unsupported?
  }

  function PolicyOf(k: EventKind): Policy
    requires Supported(k)
  {
    match k
    case Rate1 => Policy(-0.90, 3, true, Some(InDislike), true, true)
    case Rate2 => Policy(0.30, 3, true, Some(InRated), true, true)
    case Mid => Policy(0.10, 3, true, Some(InRated), true, true)
    case Rate3 => Policy(1.00, 3, true, Some(InLike), true, true)
    case Rate4 => Policy(1.55, 3, true, Some(InLike), true, true)
    case HaventSeen => Policy(0.0, 0, false, Some(InHaventSeen), false, false)
    case NotInterested => Policy(-0.40, 3, true, Some(InNotInterested), true, false)
    case Watchlist => Policy(0.45, 2, true, Some(InWatchlist), true, false)
    case Like => Policy(1.00, 3, true, Some(InLike), true, false)
    case Dislike => Policy(-0.85, 3, true, Some(InDislike), true, false)
    case Clear => Policy(0.0, 0, false, Some(InNone), false, false)
    case Skip => Policy(-0.15, 1, true, None, false, false)
    case View => Policy(0.05, 1, true, None, false, false)
    case Watched => Policy(0.20, 2, true, Some(InWatched), true, false)
    case WatchedLiked => Policy(1.10, 3, true, Some(InLike), true, false)
    case WatchedDisliked => Policy(-0.95, 3, true, Some(InDislike), true, false)
  }

  const ZERO_SIGNAL_EPS := 0.000000001

  /** Whether an event of this kind and weight moves the profile. */
  predicate AffectsTaste(k: EventKind, weight: real) {
    Supported(k) && PolicyOf(k).updatesTaste && Abs(weight) >= ZERO_SIGNAL_EPS
  }

  datatype Event = Event(title: int, kind: EventKind, weight: real, at: real)

  datatype Signal = Signal(title: int, kind: EventKind, weight: real, rawWeight: real, at: real)

  /** When the clock starts and how fast influence halves; `pow` is x -> 0.5 ** x. */
  datatype Decay = Decay(reference: Option<real>, halfLife: Option<real>, pow: real -> real)

  ghost predicate ValidPow(pow: real -> real) {
    forall x :: x >= 0.0 ==> 0.0 < pow(x) <= 1.0
  }

  function DecayFactor(age: real, halfLife: real, pow: real -> real): real {
    if halfLife <= 0.0 then 1.0 else pow(MaxReal(age, 0.0) / halfLife)
  }

  function Factor(at: real, d: Decay): real {
    if d.reference.Some? && d.halfLife.Some? && d.halfLife.value != 0.0
    then DecayFactor(d.reference.value - at, d.halfLife.value, d.pow) else 1.0
  }

  function SignalOf(e: Event, d: Decay): Signal {
    Signal(e.title, e.kind, e.weight * Factor(e.at, d), e.weight, e.at)
  }

  // ---- Declarative meaning ----

  /** The event carries taste and lies strictly after every clear of its title. */
  ghost predicate Counts(events: seq<Event>, i: nat) {
    && i < |events|
    && AffectsTaste(events[i].kind, events[i].weight)
    && forall j | 0 <= j < |events| && events[j].kind == Clear && events[j].title == events[i].title ::
         events[j].at < events[i].at
  }

  function Rank(e: Event): Tier
    requires Supported(e.kind)
  {
    PolicyOf(e.kind).tier
  }

  /** Higher tier first; within a tier the later event, and the later entry among equal times. */
  ghost predicate Beats(events: seq<Event>, i: nat, j: nat)
    requires Counts(events, i) && Counts(events, j)
  {
    Rank(events[j]) < Rank(events[i])
    || (Rank(events[j]) == Rank(events[i])
        && (events[j].at < events[i].at || (events[j].at == events[i].at && j <= i)))
  }

  /** i is the event that stands for its title. */
  ghost predicate Wins(events: seq<Event>, i: nat) {
    Counts(events, i) && forall j: nat | Counts(events, j) && events[j].title == events[i].title :: Beats(events, i, j)
  }

  /** One signal for every title with a counting event, taken from the winning one. */
  ghost predicate IsFold(events: seq<Event>, d: Decay, out: map<int, Signal>) {
    && (forall i: nat | Counts(events, i) :: events[i].title in out)
    && (forall t | t in out ::
          exists i: nat :: Wins(events, i) && events[i].title == t && out[t] == SignalOf(events[i], d))
  }

  // ---- The loops ----

  function Times(events: seq<Event>): (r: seq<real>)
    ensures |r| == |events| && forall i | 0 <= i < |events| :: r[i] == events[i].at
  {
    seq(|events|, i requires 0 <= i < |events| => events[i].at)
  }

  /** Latest clear per title. */
  ghost predicate IsLastClear(events: seq<Event>, m: map<int, real>) {
    && (forall e | e in events && e.kind == Clear :: e.title in m && e.at <= m[e.title])
    && (forall t | t in m :: exists e :: e in events && e.kind == Clear && e.title == t && e.at == m[t])
  }

  method LastClearTimestamps(events: seq<Event>) returns (m: map<int, real>)
    ensures IsLastClear(events, m)
  {
    m := map[];
    for n := 0 to |events|
      invariant IsLastClear(events[..n], m)
    {
      assert events[..n + 1] == events[..n] + [events[n]];
      var e := events[n];
      ghost var m0 := m;
      if e.kind == Clear && (e.title !in m || e.at >= m[e.title]) {
        m := m[e.title := e.at];
      }
      forall t | t in m
        ensures exists c :: c in events[..n + 1] && c.kind == Clear && c.title == t && c.at == m[t]
      {
        if t in m0 && m[t] == m0[t] {
          var c :| c in events[..n] && c.kind == Clear && c.title == t && c.at == m0[t];
          assert c in events[..n + 1];
        } else {
          assert e in events[..n + 1];
        }
      }
    }
    assert events[..|events|] == events;
  }

  predicate SupersededByClear(e: Event, lastClear: map<int, real>) {
    e.kind == Clear || (e.title in lastClear && e.at <= lastClear[e.title])
  }

  /** Whoever stands for the title of event i beats it. */
  ghost predicate Stands(events: seq<Event>, who: map<int, nat>, i: nat)
    requires Counts(events, i)
  {
    var t := events[i].title;
    t in who && Counts(events, who[t]) && Beats(events, who[t], i)
  }

  /** Among the first n events in time order: who stands for each title so far. */
  ghost predicate BestSoFar(events: seq<Event>, order: seq<nat>, n: nat, best: map<int, Event>, who: map<int, nat>)
    requires n <= |order|
  {
    && best.Keys == who.Keys
    && (forall b | 0 <= b < n && Counts(events, order[b]) :: Stands(events, who, order[b]))
    && (forall t | t in who ::
          Counts(events, who[t]) && who[t] in order[..n] && events[who[t]].title == t && best[t] == events[who[t]])
  }

  method EffectiveTitleSignals(events: seq<Event>, now: Option<real>, halfLife: Option<real>, pow: real -> real)
    returns (out: map<int, Signal>)
    ensures IsFold(events, Decay(Reference(events, now), halfLife, pow), out)
  {
    var order := StableArgsort(Times(events));
    var ordered := seq(|events|, a requires 0 <= a < |events| => events[order[a]]);
    var lastClear := LastClearTimestamps(ordered);
    var best: map<int, Event> := map[];
    ghost var who: map<int, nat> := map[];
    for n := 0 to |ordered|
      invariant BestSoFar(events, order, n, best, who)
    {
      var e := ordered[n];
      SupersededMeans(events, order, ordered, lastClear, order[n]);
      ghost var who0, best0 := who, best;
      if Supported(e.kind) && !SupersededByClear(e, lastClear) && AffectsTaste(e.kind, e.weight)
         && (e.title !in best || Rank(e) >= Rank(best[e.title])) {
        best := best[e.title := e];
        who := who[e.title := order[n]];
      }
      BestStep(events, order, n, best0, who0, best, who);
    }
    var decay := Decay(Reference(events, now), halfLife, pow);
    out := map t | t in best :: SignalOf(best[t], decay);
    BestIsFold(events, order, best, who, decay, out);
  }

  /** `now`, or the time of the last event. */
  function Reference(events: seq<Event>, now: Option<real>): Option<real> {
    if now.Some? then now
    else if events == [] then None
    else Some(LatestTime(events))
  }

  function LatestTime(events: seq<Event>): (r: real)
    requires events != []
    ensures forall e | e in events :: e.at <= r
    ensures exists e :: e in events && e.at == r
  {
    var last := events[|events| - 1];
    if |events| == 1 then last.at
    else
      var r := LatestTime(events[..|events| - 1]);
      assert events == events[..|events| - 1] + [last];
      MaxReal(r, last.at)
  }

  lemma SupersededMeans(events: seq<Event>, order: seq<nat>, ordered: seq<Event>, lastClear: map<int, real>, i: nat)
    requires IsStableOrder(Times(events), order) && |ordered| == |events| && i < |events|
    requires forall a | 0 <= a < |events| :: ordered[a] == events[order[a]]
    requires IsLastClear(ordered, lastClear)
    ensures Counts(events, i)
            <==> Supported(events[i].kind) && !SupersededByClear(events[i], lastClear)
                 && AffectsTaste(events[i].kind, events[i].weight)
  {
    forall j: nat | j < |events|
      ensures events[j] in ordered
    {
      assert j in order;
      var a :| 0 <= a < |order| && order[a] == j;
      assert ordered[a] == events[j];
    }
    if events[i].title in lastClear {
      var c :| c in ordered && c.kind == Clear && c.title == events[i].title && c.at == lastClear[events[i].title];
      var a :| 0 <= a < |ordered| && ordered[a] == c;
      assert events[order[a]] == c;
    }
  }

  /** A newcomer that precedes nothing and is outranked by nobody stands for its title. */
  lemma NewcomerStands(events: seq<Event>, who: map<int, nat>, i: nat, x: nat)
    requires Counts(events, i) && Counts(events, x) && events[i].title == events[x].title
    requires x != i ==> Precedes(Times(events), i, x) && Stands(events, who, i)
                        && Rank(events[x]) >= Rank(events[who[events[i].title]])
    ensures Stands(events, who[events[x].title := x], i)
  {
    if x != i {
      assert Beats(events, who[events[i].title], i);
    }
  }

  /** Event b among the first n + 1 is beaten by whoever stands for its title after step n. */
  lemma StandsNext(events: seq<Event>, who: map<int, nat>, who': map<int, nat>, i: nat, x: nat)
    requires Counts(events, i) && x < |events| && (x != i ==> Precedes(Times(events), i, x) && Stands(events, who, i))
    requires forall t | t in who :: Counts(events, who[t])
    requires var e := events[x];
             who' == if Counts(events, x)
                        && (e.title in who ==> Counts(events, who[e.title]) && Rank(e) >= Rank(events[who[e.title]]))
                     then who[e.title := x] else who
    ensures Stands(events, who', i)
  {
    if Counts(events, x) && events[i].title == events[x].title && who' == who[events[x].title := x] {
      NewcomerStands(events, who, i, x);
    }
  }

  lemma BestStep(events: seq<Event>, order: seq<nat>, n: nat, best: map<int, Event>, who: map<int, nat>,
                 best': map<int, Event>, who': map<int, nat>)
    requires IsStableOrder(Times(events), order) && n < |order|
    requires BestSoFar(events, order, n, best, who)
    requires var e := events[order[n]];
             if Counts(events, order[n]) && (e.title !in best || Rank(e) >= Rank(best[e.title]))
             then best' == best[e.title := e] && who' == who[e.title := order[n]]
             else best' == best && who' == who
    ensures BestSoFar(events, order, n + 1, best', who')
  {
    forall b: nat | b <= n && Counts(events, order[b])
      ensures Stands(events, who', order[b])
    {
      if b < n {
        assert Precedes(Times(events), order[b], order[n]);
      }
      StandsNext(events, who, who', order[b], order[n]);
    }
    assert order[..n + 1] == order[..n] + [order[n]];
  }

  lemma BestIsFold(events: seq<Event>, order: seq<nat>, best: map<int, Event>, who: map<int, nat>, d: Decay,
                   out: map<int, Signal>)
    requires IsStableOrder(Times(events), order)
    requires BestSoFar(events, order, |order|, best, who)
    requires out == map t | t in best :: SignalOf(best[t], d)
    ensures IsFold(events, d, out)
  {
    forall i: nat | Counts(events, i)
      ensures events[i].title in out && Beats(events, who[events[i].title], i)
    {
      assert i in order;
      var b :| 0 <= b < |order| && order[b] == i;
      assert Stands(events, who, order[b]);
    }
    forall t | t in out
      ensures exists i: nat :: Wins(events, i) && events[i].title == t && out[t] == SignalOf(events[i], d)
    {
      assert Wins(events, who[t]);
    }
  }
}
