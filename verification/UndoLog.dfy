/** What undo does to the log and to all that learning reads from it: which titles carry a signal, of which kind, with
    which decayed weight and of which time (TitleDetailPage.tsx `undoLast`, taste_signals.py). */
module UndoLog {
  import opened Basics
  import opened TasteSignals
  import opened SignalLaws
  import opened TitleStatus
  import opened UndoSignal

  /** An event recorded with the weight of its policy. */
  function EventOf(title: int, k: EventKind, at: real): Event
    requires Supported(k)
  {
    Event(title, k, PolicyOf(k).weight, at)
  }

  ghost predicate AllBefore(events: seq<Event>, t: real) {
    forall i | 0 <= i < |events| :: events[i].at < t
  }

  /** Kinds with taste carry it at their policy weight. */
  lemma TasteHasTier(k: EventKind)
    requires Supported(k)
    ensures AffectsTaste(k, PolicyOf(k).weight) <==> TierOf(k) > 0
    ensures PolicyOf(k).isRating ==> TierOf(k) > 0
  {}

  lemma EventCounts(s: Status)
    requires s.rating.Some? ==> Supported(s.rating.value) && PolicyOf(s.rating.value).isRating
    ensures EventFor(s).Some? ==> Supported(EventFor(s).value) && TierOf(EventFor(s).value) > 0
  {
    if s.rating.Some? {
      TasteHasTier(s.rating.value);
    }
  }

  /** What undo sends for the status reported after these events. */
  function Sent(events: seq<Event>, title: int): (k: Option<EventKind>)
    requires forall i | 0 <= i < |events| :: Supported(events[i].kind)
    ensures k.Some? ==> Supported(k.value) && TierOf(k.value) > 0
  {
    HistorySupported(events, title);
    StatusShape(HistoryOf(events, title));
    EventCounts(StatusOf(HistoryOf(events, title)));
    EventFor(StatusOf(HistoryOf(events, title)))
  }

  /** The log after undo: a clear, and the event that recreates the status, if there is one. */
  function UndoneLog(events: seq<Event>, title: int, sent: Option<EventKind>, t1: real, t2: real): seq<Event>
    requires sent.Some? ==> Supported(sent.value)
  {
    events + [EventOf(title, Clear, t1)] + match sent case None => [] case Some(k) => [EventOf(title, k, t2)]
  }

  /** The signals after undo, from the signals just before it. */
  function UndoneSignals(mid: map<int, Signal>, title: int, sent: Option<EventKind>, t2: real,
                         d: Decay): map<int, Signal>
    requires sent.Some? ==> Supported(sent.value)
  {
    match sent case None => mid - {title} case Some(k) => mid[title := SignalOf(EventOf(title, k, t2), d)]
  }

  lemma UndoneFold(events: seq<Event>, title: int, sent: Option<EventKind>, t1: real, t2: real, d: Decay,
                   mid: map<int, Signal>)
    requires Tidy(events) && AllBefore(events, t1) && t1 < t2 && IsFold(events, d, mid)
    requires sent.Some? ==> Supported(sent.value) && TierOf(sent.value) > 0
    ensures IsFold(UndoneLog(events, title, sent, t1, t2), d, UndoneSignals(mid, title, sent, t2, d))
  {
    FoldSupported(events, d, mid);
    ClearedFold(events, title, t1, d, mid);
    if sent.Some? {
      SentFold(events + [EventOf(title, Clear, t1)], title, sent.value, t2, d, mid - {title});
      assert (mid - {title})[title := SignalOf(EventOf(title, sent.value, t2), d)]
          == mid[title := SignalOf(EventOf(title, sent.value, t2), d)];
    } else {
      assert events + [EventOf(title, Clear, t1)] + [] == events + [EventOf(title, Clear, t1)];
    }
  }

  lemma ClearedFold(events: seq<Event>, title: int, t: real, d: Decay, mid: map<int, Signal>)
    requires AllBefore(events, t) && IsFold(events, d, mid) && forall u | u in mid :: Supported(mid[u].kind)
    ensures IsFold(events + [EventOf(title, Clear, t)], d, mid - {title})
  {
    AppendLater(events, EventOf(title, Clear, t), d, mid);
  }

  lemma SentFold(events: seq<Event>, title: int, k: EventKind, t: real, d: Decay, cleared: map<int, Signal>)
    requires AllBefore(events, t) && IsFold(events, d, cleared) && forall u | u in cleared :: Supported(cleared[u].kind)
    requires Supported(k) && TierOf(k) > 0 && title !in cleared
    ensures IsFold(events + [EventOf(title, k, t)], d, cleared[title := SignalOf(EventOf(title, k, t), d)])
  {
    TasteHasTier(k);
    AppendLater(events, EventOf(title, k, t), d, cleared);
  }

  /** The page took the status after `events`; undo is sent at t1 and t2 over the log `later`; both logs are read
      under one decay. */
  ghost predicate Undid(events: seq<Event>, later: seq<Event>, title: int, t1: real, t2: real, d: Decay,
                        before: map<int, Signal>, after: map<int, Signal>)
  {
    && events <= later && Tidy(events) && Tidy(later) && AllBefore(later, t1) && t1 < t2
    && IsFold(events, d, before)
    && IsFold(UndoneLog(later, title, Sent(events, title), t1, t2), d, after)
  }

  /** Undo gives the title the signal of the event it sent, at its new time, and leaves every other title alone. */
  lemma UndoneLearning(events: seq<Event>, later: seq<Event>, title: int, t1: real, t2: real, d: Decay,
                       before: map<int, Signal>, mid: map<int, Signal>, after: map<int, Signal>)
    requires Undid(events, later, title, t1, t2, d, before, after) && IsFold(later, d, mid)
    ensures after == UndoneSignals(mid, title, Sent(events, title), t2, d)
    ensures forall u | u != title :: (u in after <==> u in mid) && (u in mid ==> after[u] == mid[u])
  {
    var sent := Sent(events, title);
    UndoneFold(later, title, sent, t1, t2, d, mid);
    FoldUnique(UndoneLog(later, title, sent, t1, t2), d, after, UndoneSignals(mid, title, sent, t2, d));
  }

  /** The signal of the title after undo. */
  lemma AfterSignal(events: seq<Event>, later: seq<Event>, title: int, t1: real, t2: real, d: Decay,
                    before: map<int, Signal>, after: map<int, Signal>)
    requires Undid(events, later, title, t1, t2, d, before, after)
    ensures KindIn(after, title) == Sent(events, title)
    ensures title in after ==> after[title] == SignalOf(EventOf(title, Sent(events, title).value, t2), d)
  {
    UndoneLearning(events, later, title, t1, t2, d, before, FoldOf(later, d), after);
  }

  /** The signal of the title before: of the effective kind, from an event of the log. */
  lemma BeforeSignal(events: seq<Event>, title: int, t: real, d: Decay, before: map<int, Signal>)
    requires Tidy(events) && AllBefore(events, t) && IsFold(events, d, before)
    ensures AllSupported(HistoryOf(events, title)) && KindIn(before, title) == EffectiveOf(HistoryOf(events, title))
    ensures title in before ==>
              && Supported(before[title].kind) && before[title].at < t && TierOf(before[title].kind) > 0
              && before[title] == SignalOf(EventOf(title, before[title].kind, before[title].at), d)
  {
    LogEffective(events, d, before, title);
    if title in before {
      var i: nat :| Wins(events, i) && events[i].title == title && before[title] == SignalOf(events[i], d);
      WinnerSignal(events, i, t, d);
    }
  }

  lemma WinnerSignal(events: seq<Event>, i: nat, t: real, d: Decay)
    requires Tidy(events) && AllBefore(events, t) && Wins(events, i)
    ensures var e := events[i];
            Supported(e.kind) && e.at < t && TierOf(e.kind) > 0 && e == EventOf(e.title, e.kind, e.at)
  {
    assert Counts(events, i);
    TasteHasTier(events[i].kind);
  }

  // ---- Kind ----

  /** The kind of the signal survives exactly when the last state-setting event stands for the history. */
  lemma UndoKindIff(events: seq<Event>, later: seq<Event>, title: int, t1: real, t2: real, d: Decay,
                    before: map<int, Signal>, after: map<int, Signal>)
    requires Undid(events, later, title, t1, t2, d, before, after)
    ensures AllSupported(HistoryOf(events, title))
    ensures KindIn(after, title) == KindIn(before, title) <==> UndoKeepsKind(HistoryOf(events, title))
  {
    EarlierLog(events, later, t1);
    BeforeSignal(events, title, t1, d, before);
    AfterSignal(events, later, title, t1, t2, d, before, after);
    RecreatedIsEffectiveIff(HistoryOf(events, title));
  }

  lemma EarlierLog(events: seq<Event>, later: seq<Event>, t: real)
    requires events <= later && AllBefore(later, t)
    ensures AllBefore(events, t)
  {
    assert forall i | 0 <= i < |events| :: events[i] == later[i];
  }

  // ---- Weight ----

  /** Decay still separates an event of this time from a later one. */
  predicate Ages(d: Decay, at: real) {
    d.reference.Some? && d.halfLife.Some? && d.halfLife.value > 0.0 && at < d.reference.value
  }

  ghost predicate StrictPow(pow: real -> real) {
    forall x, y | 0.0 <= x < y :: pow(y) < pow(x)
  }

  lemma QuotientStrict(x: real, y: real, c: real)
    requires x < y && c > 0.0
    ensures x / c < y / c
  {}

  lemma FactorSame(d: Decay, at: real, t: real)
    requires !Ages(d, at) && at < t
    ensures Factor(t, d) == Factor(at, d)
  {}

  lemma FactorGrows(d: Decay, at: real, t: real)
    requires Ages(d, at) && at < t && StrictPow(d.pow)
    ensures Factor(at, d) < Factor(t, d)
  {
    var r, c := d.reference.value, d.halfLife.value;
    var older, younger := MaxReal(r - at, 0.0), MaxReal(r - t, 0.0);
    QuotientStrict(younger, older, c);
    assert 0.0 <= younger / c by {
      if younger > 0.0 {
        QuotientStrict(0.0, younger, c);
      }
    }
  }

  /** What learning is told about a title, 0 without a signal. */
  function Learned(out: map<int, Signal>, title: int): real {
    if title in out then out[title].weight else 0.0
  }

  function KindWeight(k: Option<EventKind>): real
    requires k.Some? ==> Supported(k.value)
  {
    match k case None => 0.0 case Some(x) => PolicyOf(x).weight
  }

  /** Weight of a kind under decay, from the time it was recorded. */
  function Decayed(k: Option<EventKind>, at: real, d: Decay): real
    requires k.Some? ==> Supported(k.value)
  {
    KindWeight(k) * Factor(at, d)
  }

  lemma LearnedIs(out: map<int, Signal>, title: int, k: Option<EventKind>, at: real, d: Decay)
    requires k.Some? ==> Supported(k.value)
    requires title in out <==> k.Some?
    requires title in out ==> out[title] == SignalOf(EventOf(title, k.value, at), d)
    ensures Learned(out, title) == Decayed(k, at, d)
  {}

  /** Undo never sends anything when nothing was learned. */
  lemma NothingSent(h: seq<EventKind>)
    requires AllSupported(h) && EffectiveOf(h).None?
    ensures EventFor(StatusOf(h)).None? && UndoKeepsKind(h) && Standing(h) == 0
  {
    EffectiveTier(h);
    EventIsResent(h);
    DurableSignal(h);
  }

  /** The learned weight survives exactly when the weight of what is sent, decayed from its new time, is the weight of
      what was effective, decayed from its own; a title without a signal has none afterwards either. */
  lemma UndoWeightIff(events: seq<Event>, later: seq<Event>, title: int, t1: real, t2: real, d: Decay,
                      before: map<int, Signal>, after: map<int, Signal>)
    requires Undid(events, later, title, t1, t2, d, before, after)
    ensures title !in before ==> title !in after
    ensures title in before ==>
              && Supported(before[title].kind)
              && (Learned(after, title) == Learned(before, title)
                  <==> Decayed(Sent(events, title), t2, d) == Decayed(Some(before[title].kind), before[title].at, d))
  {
    EarlierLog(events, later, t1);
    BeforeSignal(events, title, t1, d, before);
    AfterSignal(events, later, title, t1, t2, d, before, after);
    LearnedIs(after, title, Sent(events, title), t2, d);
    if title in before {
      LearnedIs(before, title, Some(before[title].kind), before[title].at, d);
    } else {
      NothingSent(HistoryOf(events, title));
    }
  }

  /** Two kinds that carry taste weigh the same only if they are equal, or are the rating 3 and the like. */
  lemma SameWeight(a: EventKind, b: EventKind)
    requires Supported(a) && Supported(b) && TierOf(a) > 0 && TierOf(b) > 0
    ensures PolicyOf(a).weight != 0.0
    ensures PolicyOf(a).weight == PolicyOf(b).weight
            <==> a == b || (a == Rate3 && b == Like) || (a == Like && b == Rate3)
  {}

  lemma DecayedSame(a: Option<EventKind>, b: Option<EventKind>, at: real, t: real, d: Decay)
    requires (a.Some? ==> Supported(a.value)) && (b.Some? ==> Supported(b.value))
    requires ValidPow(d.pow) && !Ages(d, at) && at < t
    ensures Decayed(a, t, d) == Decayed(b, at, d) <==> KindWeight(a) == KindWeight(b)
  {
    FactorSame(d, at, t);
    FactorInRange(t, d);
    DecayedAlike(b, at, t, d);
    CancelDecay(a, b, t, d);
  }

  lemma DecayedAlike(k: Option<EventKind>, at: real, t: real, d: Decay)
    requires (k.Some? ==> Supported(k.value)) && Factor(t, d) == Factor(at, d)
    ensures Decayed(k, at, d) == Decayed(k, t, d)
  {}

  lemma CancelDecay(a: Option<EventKind>, b: Option<EventKind>, t: real, d: Decay)
    requires (a.Some? ==> Supported(a.value)) && (b.Some? ==> Supported(b.value)) && Factor(t, d) > 0.0
    ensures Decayed(a, t, d) == Decayed(b, t, d) <==> KindWeight(a) == KindWeight(b)
  {
    DecayedTimes(a, t, d);
    DecayedTimes(b, t, d);
    CancelFactor(Decayed(a, t, d), Decayed(b, t, d), KindWeight(a), KindWeight(b), Factor(t, d));
  }

  ghost predicate Times(product: real, x: real, y: real) {
    product == x * y
  }

  lemma DecayedTimes(k: Option<EventKind>, t: real, d: Decay)
    requires k.Some? ==> Supported(k.value)
    ensures Times(Decayed(k, t, d), KindWeight(k), Factor(t, d))
  {}

  lemma CancelFactor(p: real, q: real, x: real, y: real, f: real)
    requires Times(p, x, f) && Times(q, y, f) && f > 0.0
    ensures p == q <==> x == y
  {
    if x < y {
      assert (y - x) * f > 0.0;
    } else if y < x {
      assert (x - y) * f > 0.0;
    }
  }

  /** The like shortcut right on top of a rating of 3: undo sends the rating, which weighs the same. */
  predicate LikeOverThree(h: seq<EventKind>)
    requires AllSupported(h)
  {
    LastDurable(h) == Some(Like) && NewestRating(h) == Some(Rate3)
  }

  lemma SentWeightIff(h: seq<EventKind>)
    requires AllSupported(h) && EffectiveOf(h).Some? && TierOf(EffectiveOf(h).value) > 0
    requires EventFor(StatusOf(h)).Some? ==>
               Supported(EventFor(StatusOf(h)).value) && TierOf(EventFor(StatusOf(h)).value) > 0
    ensures KindWeight(EventFor(StatusOf(h))) == KindWeight(EffectiveOf(h)) <==> UndoKeepsKind(h) || LikeOverThree(h)
  {
    var sent, kind := EventFor(StatusOf(h)), EffectiveOf(h).value;
    SameWeight(kind, kind);
    RecreatedIsEffectiveIff(h);
    EventIsResent(h);
    DurableSignal(h);
    if sent.Some? {
      SameWeight(sent.value, kind);
    }
  }

  /** Where decay no longer separates the times, the learned weight survives exactly when the kind does, or when the
      like shortcut lies over a rating of 3. */
  lemma UndoWeightUnagedIff(events: seq<Event>, later: seq<Event>, title: int, t1: real, t2: real, d: Decay,
                            before: map<int, Signal>, after: map<int, Signal>)
    requires Undid(events, later, title, t1, t2, d, before, after) && ValidPow(d.pow)
    requires title in before ==> !Ages(d, before[title].at)
    ensures AllSupported(HistoryOf(events, title))
    ensures Learned(after, title) == Learned(before, title)
            <==> UndoKeepsKind(HistoryOf(events, title)) || LikeOverThree(HistoryOf(events, title))
  {
    var h := HistoryOf(events, title);
    EarlierLog(events, later, t1);
    BeforeSignal(events, title, t1, d, before);
    UndoWeightIff(events, later, title, t1, t2, d, before, after);
    if title in before {
      DecayedSame(Sent(events, title), Some(before[title].kind), before[title].at, t2, d);
      SentWeightIff(h);
    } else {
      NothingSent(h);
    }
  }

  lemma StretchedWeight(w: real, f: real, f': real)
    requires 0.0 < f < f' && w != 0.0
    ensures w > 0.0 ==> 0.0 < w * f < w * f'
    ensures w < 0.0 ==> w * f' < w * f < 0.0
  {
    if w > 0.0 {
      assert w * (f' - f) > 0.0;
    } else {
      assert w * (f' - f) < 0.0;
    }
  }

  /** While it ages, a signal that undo restores comes back stronger than it was: its clock starts anew. */
  lemma UndoRefreshes(events: seq<Event>, later: seq<Event>, title: int, t1: real, t2: real, d: Decay,
                      before: map<int, Signal>, after: map<int, Signal>)
    requires Undid(events, later, title, t1, t2, d, before, after) && ValidPow(d.pow) && StrictPow(d.pow)
    requires title in before && Ages(d, before[title].at) && KindIn(after, title) == KindIn(before, title)
    ensures 0.0 < before[title].weight < after[title].weight || after[title].weight < before[title].weight < 0.0
  {
    var kind, at := before[title].kind, before[title].at;
    EarlierLog(events, later, t1);
    BeforeSignal(events, title, t1, d, before);
    AfterSignal(events, later, title, t1, t2, d, before, after);
    LearnedIs(before, title, Some(kind), at, d);
    LearnedIs(after, title, Some(kind), t2, d);
    DecayedGrows(kind, at, t2, d);
  }

  lemma DecayedGrows(k: EventKind, at: real, t: real, d: Decay)
    requires Supported(k) && TierOf(k) > 0 && ValidPow(d.pow) && StrictPow(d.pow) && Ages(d, at) && at < t
    ensures 0.0 < Decayed(Some(k), at, d) < Decayed(Some(k), t, d)
            || Decayed(Some(k), t, d) < Decayed(Some(k), at, d) < 0.0
  {
    SameWeight(k, k);
    FactorInRange(at, d);
    FactorGrows(d, at, t);
    StretchedWeight(PolicyOf(k).weight, Factor(at, d), Factor(t, d));
  }

  // ---- All that is learned ----

  /** Kind and learned weight both survive exactly when the last state-setting event stands for the history and the
      signal, if there is one, no longer ages. */
  lemma UndoRestoresLearningIff(events: seq<Event>, later: seq<Event>, title: int, t1: real, t2: real, d: Decay,
                                before: map<int, Signal>, after: map<int, Signal>)
    requires Undid(events, later, title, t1, t2, d, before, after) && ValidPow(d.pow) && StrictPow(d.pow)
    ensures AllSupported(HistoryOf(events, title))
    ensures KindIn(after, title) == KindIn(before, title) && Learned(after, title) == Learned(before, title)
            <==> UndoKeepsKind(HistoryOf(events, title)) && (title in before ==> !Ages(d, before[title].at))
  {
    UndoKindIff(events, later, title, t1, t2, d, before, after);
    if title in before && Ages(d, before[title].at) {
      if KindIn(after, title) == KindIn(before, title) {
        UndoRefreshes(events, later, title, t1, t2, d, before, after);
      }
    } else {
      UndoWeightUnagedIff(events, later, title, t1, t2, d, before, after);
    }
  }

  function SignalIn(out: map<int, Signal>, title: int): Option<Signal> {
    if title in out then Some(out[title]) else None
  }

  /** The whole signal, its time included, survives exactly when there was none: undo never restores a time. */
  lemma UndoRestoresSignalIff(events: seq<Event>, later: seq<Event>, title: int, t1: real, t2: real, d: Decay,
                              before: map<int, Signal>, after: map<int, Signal>)
    requires Undid(events, later, title, t1, t2, d, before, after)
    ensures AllSupported(HistoryOf(events, title))
    ensures title in before && title in after ==> before[title].at < after[title].at
    ensures SignalIn(after, title) == SignalIn(before, title) <==> Standing(HistoryOf(events, title)) == 0
  {
    EarlierLog(events, later, t1);
    BeforeSignal(events, title, t1, d, before);
    AfterSignal(events, later, title, t1, t2, d, before, after);
    EffectiveTier(HistoryOf(events, title));
    if title !in before {
      NothingSent(HistoryOf(events, title));
    }
  }

  /** If the recreating event is not stamped later than the clear, the clear hides it and the signal is lost. */
  lemma EqualStampsLoseSignal(later: seq<Event>, title: int, k: EventKind, t: real, d: Decay, after: map<int, Signal>)
    requires Supported(k) && AllBefore(later, t)
    requires IsFold(UndoneLog(later, title, Some(k), t, t), d, after)
    ensures title !in after
  {
    var log := UndoneLog(later, title, Some(k), t, t);
    assert log[|later|] == EventOf(title, Clear, t);
    forall i: nat | i < |log| && log[i].title == title
      ensures !Counts(log, i)
    {
      assert log[i].at <= log[|later|].at;
    }
  }

  // ---- Witnesses ----

  lemma FoldsOf(events: seq<Event>, later: seq<Event>, title: int, t1: real, t2: real, d: Decay)
    returns (before: map<int, Signal>, after: map<int, Signal>)
    requires events <= later && Tidy(events) && Tidy(later) && AllBefore(later, t1) && t1 < t2
    ensures Undid(events, later, title, t1, t2, d, before, after)
  {
    before := FoldOf(events, d);
    after := UndoneSignals(FoldOf(later, d), title, Sent(events, title), t2, d);
    UndoneFold(later, title, Sent(events, title), t1, t2, d, FoldOf(later, d));
  }

  lemma OneEvent(e: Event)
    requires Supported(e.kind)
    ensures HistoryOf([e], e.title) == [e.kind] && AllSupported([e.kind])
  {
    assert [e][..0] == [];
  }

  /** A rating of 4 a year old, a mis-tapped watchlist entry and undo: with a half-life of a year the rating counts in
      full again. */
  lemma AgedRatingRefreshed(title: int, pow: real -> real) returns (before: map<int, Signal>, after: map<int, Signal>)
    requires ValidPow(pow)
    ensures var events := [EventOf(title, Rate4, 0.0)];
            var later := events + [EventOf(title, Watchlist, 363.0)];
            Undid(events, later, title, 364.0, 365.0, Decay(Some(365.0), Some(365.0), pow), before, after)
    ensures title in before && before[title].kind == Rate4 && before[title].weight == 1.55 * pow(1.0)
    ensures title in after && after[title].kind == Rate4 && after[title].weight == 1.55 * pow(0.0)
  {
    var d := Decay(Some(365.0), Some(365.0), pow);
    var rating := EventOf(title, Rate4, 0.0);
    var events := [rating];
    var later := events + [EventOf(title, Watchlist, 363.0)];
    OneEvent(rating);
    RatingStands();
    before, after := FoldsOf(events, later, title, 364.0, 365.0, d);
    EarlierLog(events, later, 364.0);
    BeforeSignal(events, title, 364.0, d, before);
    AfterSignal(events, later, title, 364.0, 365.0, d, before, after);
    OnlyEvent(rating, d, before);
    YearFactors(pow);
  }

  lemma RatingStands()
    ensures AllSupported([Rate4]) && EffectiveOf([Rate4]) == Some(Rate4) && EventFor(StatusOf([Rate4])) == Some(Rate4)
  {
    assert Front([Rate4]) == [];
  }

  lemma OnlyEvent(e: Event, d: Decay, out: map<int, Signal>)
    requires IsFold([e], d, out) && e.title in out
    ensures out[e.title] == SignalOf(e, d)
  {
    var i: nat :| Wins([e], i) && [e][i].title == e.title && out[e.title] == SignalOf([e][i], d);
    assert i == 0;
  }

  lemma YearFactors(pow: real -> real)
    ensures var d := Decay(Some(365.0), Some(365.0), pow); Factor(0.0, d) == pow(1.0) && Factor(365.0, d) == pow(0.0)
  {}

  lemma TwoEvents(a: Event, b: Event)
    requires Supported(a.kind) && Supported(b.kind) && a.title == b.title
    ensures HistoryOf([a, b], a.title) == [a.kind, b.kind] && AllSupported([a.kind, b.kind])
  {
    OneEvent(a);
    assert [a, b][..1] == [a];
  }

  lemma LikeStands()
    ensures AllSupported([Rate3, Like]) && EffectiveOf([Rate3, Like]) == Some(Like)
    ensures EventFor(StatusOf([Rate3, Like])) == Some(Rate3)
  {
    var h := [Rate3, Like];
    assert Front(h) == [Rate3] && Front([Rate3]) == [];
    assert NewestRating([Rate3]) == Some(Rate3);
  }

  /** A rating of 3 under the like shortcut, without decay: undo changes the kind and keeps the weight. */
  lemma LikeBecomesRating(title: int, pow: real -> real) returns (before: map<int, Signal>, after: map<int, Signal>)
    ensures var events := [EventOf(title, Rate3, 0.0), EventOf(title, Like, 1.0)];
            Undid(events, events, title, 2.0, 3.0, Decay(None, None, pow), before, after)
    ensures title in before && before[title].kind == Like && before[title].weight == 1.0
    ensures title in after && after[title].kind == Rate3 && after[title].weight == 1.0
  {
    var d := Decay(None, None, pow);
    var events := [EventOf(title, Rate3, 0.0), EventOf(title, Like, 1.0)];
    LikeLog(title);
    before, after := FoldsOf(events, events, title, 2.0, 3.0, d);
    BeforeSignal(events, title, 2.0, d, before);
    AfterSignal(events, events, title, 2.0, 3.0, d, before, after);
    FullWeight(title, Like, before[title].at, pow);
    FullWeight(title, Rate3, 3.0, pow);
  }

  lemma LikeLog(title: int)
    ensures var events := [EventOf(title, Rate3, 0.0), EventOf(title, Like, 1.0)];
            && Tidy(events) && AllBefore(events, 2.0) && AllSupported(HistoryOf(events, title))
            && EffectiveOf(HistoryOf(events, title)) == Some(Like) && Sent(events, title) == Some(Rate3)
  {
    TwoEvents(EventOf(title, Rate3, 0.0), EventOf(title, Like, 1.0));
    LikeStands();
  }

  lemma FullWeight(title: int, k: EventKind, at: real, pow: real -> real)
    requires Supported(k)
    ensures SignalOf(EventOf(title, k, at), Decay(None, None, pow)).weight == PolicyOf(k).weight
  {}
}
