/** What undo does to the kind of the event that stands for a title (TitleDetailPage.tsx `undoLast`, taste_signals.py);
    what it does to weight and time is in `UndoLog`. */
module UndoSignal {
  import opened Basics
  import opened TasteSignals
  import opened TitleStatus

  /** Tier of one event, 0 when it carries no taste. */
  function TierOf(k: EventKind): Tier
    requires Supported(k)
  {
    if AffectsTaste(k, PolicyOf(k).weight) then PolicyOf(k).tier else 0
  }

  /** Strongest tier recorded since the last clear. */
  function Standing(h: seq<EventKind>): Tier
    requires AllSupported(h)
  {
    if h == [] || Last(h) == Clear then 0
    else Max(Standing(Front(h)), TierOf(Last(h)))
  }

  /** The effective event is of the strongest tier, and there is none exactly when nothing counts. */
  lemma {:induction false} EffectiveTier(h: seq<EventKind>)
    requires AllSupported(h)
    ensures EffectiveOf(h).None? <==> Standing(h) == 0
    ensures EffectiveOf(h).Some? ==> PolicyOf(EffectiveOf(h).value).tier == Standing(h)
  {
    if h != [] {
      EffectiveTier(Front(h));
    }
  }

  /** An intent that nothing stronger precedes is the effective event. */
  lemma {:induction false} IntentStands(h: seq<EventKind>)
    requires AllSupported(h) && LastDurable(h).Some? && TierOf(LastDurable(h).value) == 2 && Standing(h) <= 2
    ensures EffectiveOf(h) == LastDurable(h)
  {
    EffectiveTier(Front(h));
    if PolicyOf(Last(h)).state.None? {
      IntentStands(Front(h));
    }
  }

  /** Whether the one event undo sends stands for everything recorded since the last clear: the last state-setting
      event must be an opinion of its own kind, or an intent that follows no opinion, or nothing may count at all. */
  predicate UndoKeepsKind(h: seq<EventKind>)
    requires AllSupported(h)
  {
    match LastDurable(h)
    case None => Standing(h) == 0
    case Some(k) =>
      match k
      case Clear => Standing(h) == 0
      case HaventSeen => Standing(h) == 0
      case Watchlist => Standing(h) == 2
      case Watched => Standing(h) == 2
      case Like => NewestRating(h).None?
      case Dislike => NewestRating(h).None?
      case WatchedLiked => false
      case WatchedDisliked => false
      case _ => true
  }

  /** What undo sends, by the last state-setting event and the newest rating. */
  function Resent(durable: Option<EventKind>, newest: Option<EventKind>): Option<EventKind> {
    match durable
    case None => None
    case Some(k) =>
      match k
      case Clear => None
      case HaventSeen => None
      case Like => if newest.Some? then newest else Some(Like)
      case WatchedLiked => if newest.Some? then newest else Some(Like)
      case Dislike => if newest.Some? then newest else Some(Dislike)
      case WatchedDisliked => if newest.Some? then newest else Some(Dislike)
      case _ => durable
  }

  lemma EventIsResent(h: seq<EventKind>)
    requires AllSupported(h)
    ensures EventFor(StatusOf(h)) == Resent(LastDurable(h), NewestRating(h))
  {
    DurableFacts(h);
  }

  /** The event undo recreates is the effective one exactly under that condition. */
  lemma RecreatedIsEffectiveIff(h: seq<EventKind>)
    requires AllSupported(h)
    ensures EventFor(StatusOf(h)) == EffectiveOf(h) <==> UndoKeepsKind(h)
  {
    EventIsResent(h);
    EffectiveTier(h);
    DurableSignal(h);
    if LastDurable(h).Some? && TierOf(LastDurable(h).value) == 2 && Standing(h) <= 2 {
      IntentStands(h);
    }
  }

  /** After an undo the effective event is the one that was sent. */
  lemma UndoneSignal(h: seq<EventKind>, target: Status)
    requires AllSupported(h) && (target.rating.Some? ==> Supported(target.rating.value))
    requires target.rating.Some? ==> PolicyOf(target.rating.value).isRating
    ensures AllSupported(Undo(h, target)) && EffectiveOf(Undo(h, target)) == EventFor(target)
  {
    AfterClear(h, EventFor(target));
  }

  /** Undo restores the effective signal exactly when the last state-setting event stands for the history,
      for every supported history and whatever happened in between. */
  lemma UndoRestoresKindIff(h: seq<EventKind>, more: seq<EventKind>)
    requires AllSupported(h) && AllSupported(more)
    ensures AllSupported(Undo(h + more, StatusOf(h)))
    ensures EffectiveOf(Undo(h + more, StatusOf(h))) == EffectiveOf(h) <==> UndoKeepsKind(h)
  {
    StatusShape(h);
    UndoneSignal(h + more, StatusOf(h));
    RecreatedIsEffectiveIff(h);
  }

  /** Without shortcuts undo keeps the signal exactly when the last event is at least as strong as all before it. */
  lemma PlainUndoRestoresKindIff(h: seq<EventKind>, more: seq<EventKind>)
    requires Plain(h) && AllSupported(more)
    ensures AllSupported(h) && AllSupported(Undo(h + more, StatusOf(h)))
    ensures EffectiveOf(Undo(h + more, StatusOf(h))) == EffectiveOf(h)
            <==> (h != [] && Last(h) != Clear ==> PolicyOf(Last(h)).tier >= Standing(Front(h)))
  {
    if h != [] {
      PlainDurable(h);
    }
    UndoRestoresKindIff(h, more);
  }

  lemma RatedThenListed()
    ensures AllSupported([Rate4, Watchlist]) && EffectiveOf([Rate4, Watchlist]) == Some(Rate4)
    ensures StatusOf([Rate4, Watchlist]) == Status(Some(InWatchlist), None)
  {
    var h := [Rate4, Watchlist];
    assert Front(h) == [Rate4] && Front([Rate4]) == [];
    assert EffectiveOf([Rate4]) == Some(Rate4);
  }

  /** Rating 4, then watchlist, then "not interested" undone: the rating the profile learned from is gone. */
  lemma UndoLosesRating()
    ensures var h := [Rate4, Watchlist];
            && Plain(h) && AllSupported(h) && AllSupported(Undo(h + [NotInterested], StatusOf(h)))
            && EffectiveOf(h) == Some(Rate4)
            && EffectiveOf(Undo(h + [NotInterested], StatusOf(h))) == Some(Watchlist)
  {
    RatedThenListed();
    UndoneSignal([Rate4, Watchlist] + [NotInterested], StatusOf([Rate4, Watchlist]));
  }
}
