/** Recording interactions, and the three views of one title they produce: state row, reported rating, effective
    signal (taste_service.py `record_interaction`, recommendation_service.py `user_title_status`,
    TitleDetailPage.tsx `statusAfter`, `eventFor`, `undoLast`). */
module TitleStatus {
  import opened Basics
  import opened TasteSignals
  import opened SignalLaws

  /** One user's stored rows: the append-only log and the state per title. */
  datatype Log = Log(events: seq<Event>, states: map<int, TitleState>)

  function Row(log: Log, title: int): Option<TitleState> {
    if title in log.states then Some(log.states[title]) else None
  }

  /** The state a row holds after one more supported event; a row is created on first contact. */
  function NextState(row: Option<TitleState>, k: EventKind): TitleState
    requires Supported(k)
  {
    match PolicyOf(k).state
    case Some(s) => s
    case None => if row.Some? then row.value else InNone
  }

  function Record(log: Log, e: Event): Log
    requires Supported(e.kind)
  {
    Log(log.events + [e], log.states[e.title := NextState(Row(log, e.title), e.kind)])
  }

  class TasteService {
    const halfLife: Option<real>
    const pow: real -> real
    var events: seq<Event>
    var states: map<int, TitleState>
    /** The signals the profile was last built from. */
    var signals: map<int, Signal>

    ghost function State(): Log
      reads this
    {
      Log(events, states)
    }

    constructor (halfLife: Option<real>, pow: real -> real)
      ensures State() == Log([], map[]) && signals == map[] && this.halfLife == halfLife && this.pow == pow
    {
      this.halfLife, this.pow := halfLife, pow;
      events, states, signals := [], map[], map[];
    }

    /** Append one event, update the title's state row and, unless told not to, rebuild the profile's signals from the
        whole log; an unsupported kind is refused and changes nothing. */
    method RecordInteraction(title: int, kind: EventKind, weight: Option<real>, at: real, recompute: bool, now: real)
      returns (ok: bool)
      modifies this
      ensures ok == Supported(kind)
      ensures !ok ==> State() == old(State()) && signals == old(signals)
      ensures ok ==> State() == Record(old(State()),
                         Event(title, kind, if weight.Some? then weight.value else PolicyOf(kind).weight, at))
      ensures ok && !recompute ==> signals == old(signals)
      ensures ok && recompute ==> IsFold(events, Decay(Reference(events, Some(now)), halfLife, pow), signals)
    {
      if !Supported(kind) {
        return false;
      }
      var policy := PolicyOf(kind);
      var eventWeight := if weight.Some? then weight.value else policy.weight;
      events := events + [Event(title, kind, eventWeight, at)];
      if policy.state.Some? {
        states := states[title := policy.state.value];
      } else if title !in states {
        states := states[title := InNone];
      }
      ok := true;
      assert states == Record(old(State()), Event(title, kind, eventWeight, at)).states;
      if recompute {
        signals := EffectiveTitleSignals(events, Some(now), halfLife, pow);
      }
    }
  }

  // ---- One title's history ----

  /** The kinds recorded for one title, oldest first. */
  function HistoryOf(events: seq<Event>, title: int): seq<EventKind> {
    if events == [] then []
    else
      var last := events[|events| - 1];
      var h := HistoryOf(events[..|events| - 1], title);
      if last.title == title then h + [last.kind] else h
  }

  ghost predicate AllSupported(h: seq<EventKind>) {
    forall i | 0 <= i < |h| :: Supported(h[i])
  }

  function Front(h: seq<EventKind>): seq<EventKind>
    requires h != []
  {
    h[..|h| - 1]
  }

  function Last(h: seq<EventKind>): EventKind
    requires h != []
  {
    h[|h| - 1]
  }

  /** State row after a history. */
  function StateOf(h: seq<EventKind>): Option<TitleState>
    requires AllSupported(h)
  {
    if h == [] then None else Some(NextState(StateOf(Front(h)), Last(h)))
  }

  /** Kind of the effective signal after a history with policy weights. */
  function EffectiveOf(h: seq<EventKind>): (r: Option<EventKind>)
    requires AllSupported(h)
    ensures r.Some? ==> Supported(r.value)
  {
    if h == [] then None
    else
      var before, k := EffectiveOf(Front(h)), Last(h);
      if k == Clear then None
      else if AffectsTaste(k, PolicyOf(k).weight)
              && (before.None? || PolicyOf(k).tier >= PolicyOf(before.value).tier)
      then Some(k)
      else before
  }

  /** Newest rating since the last clear: the newest among ratings and clears, unless that is a clear. */
  function NewestRating(h: seq<EventKind>): (r: Option<EventKind>)
    requires AllSupported(h)
    ensures r.Some? ==> Supported(r.value) && PolicyOf(r.value).isRating
  {
    if h == [] then None
    else if Last(h) == Clear then None
    else if PolicyOf(Last(h)).isRating then Some(Last(h))
    else NewestRating(Front(h))
  }

  datatype Status = Status(state: Option<TitleState>, rating: Option<EventKind>)

  const NO_STATUS := Status(None, None)

  /** What the detail page is told. */
  function Report(row: Option<TitleState>, newest: Option<EventKind>): Status {
    if row.None? || row.value == InNone || row.value == InHaventSeen then NO_STATUS
    else if row.value !in {InLike, InDislike, InRated} then Status(row, None)
    else Status(row, newest)
  }

  function StatusOf(h: seq<EventKind>): Status
    requires AllSupported(h)
  {
    Report(StateOf(h), NewestRating(h))
  }

  predicate FeedExcluded(row: Option<TitleState>) {
    row.Some? && row.value in {InLike, InDislike, InRated, InNotInterested, InWatchlist, InWatched}
  }

  // ---- The log and the histories agree ----

  /** Increasing times and policy weights, all kinds supported. */
  ghost predicate Tidy(events: seq<Event>) {
    && (forall i | 0 <= i < |events| ::
          Supported(events[i].kind) && events[i].weight == PolicyOf(events[i].kind).weight)
    && (forall i, j | 0 <= i < j < |events| :: events[i].at < events[j].at)
  }

  lemma {:induction false} HistorySupported(events: seq<Event>, title: int)
    requires forall i | 0 <= i < |events| :: Supported(events[i].kind)
    ensures AllSupported(HistoryOf(events, title))
  {
    if events != [] {
      HistorySupported(events[..|events| - 1], title);
    }
  }

  /** The row is the fold of the title's history. */
  ghost predicate RowMatches(log: Log, title: int) {
    AllSupported(HistoryOf(log.events, title)) && Row(log, title) == StateOf(HistoryOf(log.events, title))
  }

  ghost predicate RowsMatch(log: Log) {
    && (forall i | 0 <= i < |log.events| :: Supported(log.events[i].kind))
    && forall title :: RowMatches(log, title)
  }

  lemma RecordedRow(log: Log, e: Event, title: int)
    requires Supported(e.kind) && RowMatches(log, title)
    ensures RowMatches(Record(log, e), title)
  {
    RecordedHistory(log.events, e, title);
    if e.title == title {
      StateAppend(HistoryOf(log.events, title), e.kind);
    } else {
      assert HistoryOf(log.events, title) + [] == HistoryOf(log.events, title);
    }
  }

  /** Every recorded interaction keeps each state row equal to the fold of its title's history. */
  lemma RecordKeepsRows(log: Log, e: Event)
    requires RowsMatch(log) && Supported(e.kind)
    ensures RowsMatch(Record(log, e))
  {
    forall title
      ensures RowMatches(Record(log, e), title)
    {
      RecordedRow(log, e, title);
    }
  }

  /** What a request to record an event leaves stored; an unsupported kind is refused. */
  function Attempt(log: Log, e: Event): Log {
    if Supported(e.kind) then Record(log, e) else log
  }

  /** The stored rows after a whole run of requests, starting from nothing. */
  function Recorded(requests: seq<Event>): Log {
    if requests == [] then Log([], map[])
    else Attempt(Recorded(requests[..|requests| - 1]), requests[|requests| - 1])
  }

  /** After every run each state row equals the fold of its title's history. */
  lemma {:induction false} RunKeepsRows(requests: seq<Event>)
    ensures RowsMatch(Recorded(requests))
  {
    if requests != [] {
      var last := requests[|requests| - 1];
      RunKeepsRows(requests[..|requests| - 1]);
      if Supported(last.kind) {
        RecordKeepsRows(Recorded(requests[..|requests| - 1]), last);
      }
    }
  }

  lemma RecordedHistory(events: seq<Event>, e: Event, title: int)
    ensures HistoryOf(events + [e], title) == HistoryOf(events, title) + if e.title == title then [e.kind] else []
  {
    assert (events + [e])[..|events|] == events;
  }

  lemma StateAppend(h: seq<EventKind>, k: EventKind)
    requires AllSupported(h) && Supported(k)
    ensures AllSupported(h + [k]) && StateOf(h + [k]) == Some(NextState(StateOf(h), k))
  {
    assert Front(h + [k]) == h;
  }

  /** The fold of a tidy log, event by event. */
  ghost function FoldOf(events: seq<Event>, d: Decay): (out: map<int, Signal>)
    requires Tidy(events)
    ensures IsFold(events, d, out) && forall t | t in out :: Supported(out[t].kind)
  {
    if events == [] then map[]
    else
      var front, last := events[..|events| - 1], events[|events| - 1];
      var out := FoldOf(front, d);
      assert events == front + [last];
      AppendLater(front, last, d, out);
      FoldSupported(events, d, AfterAppend(out, last, d));
      AfterAppend(out, last, d)
  }

  /** Kind of a title's signal. */
  function KindIn(out: map<int, Signal>, title: int): Option<EventKind> {
    if title in out then Some(out[title].kind) else None
  }

  /** Appending one event to the log changes the kind of the signal as appending its kind changes the effective one. */
  lemma KindAfterAppend(out: map<int, Signal>, e: Event, d: Decay, h: seq<EventKind>)
    requires Supported(e.kind) && e.weight == PolicyOf(e.kind).weight && AllSupported(h)
    requires forall t | t in out :: Supported(out[t].kind)
    requires EffectiveOf(h) == KindIn(out, e.title)
    ensures EffectiveOf(h + [e.kind]) == KindIn(AfterAppend(out, e, d), e.title)
  {
    assert Front(h + [e.kind]) == h && Last(h + [e.kind]) == e.kind;
  }

  lemma {:induction false} FoldOfKinds(events: seq<Event>, d: Decay, title: int)
    requires Tidy(events)
    ensures AllSupported(HistoryOf(events, title))
    ensures EffectiveOf(HistoryOf(events, title)) == KindIn(FoldOf(events, d), title)
  {
    HistorySupported(events, title);
    if events != [] {
      var front, last := events[..|events| - 1], events[|events| - 1];
      FoldOfKinds(front, d, title);
      if last.title == title {
        KindAfterAppend(FoldOf(front, d), last, d, HistoryOf(front, title));
      }
    }
  }

  /** On a log with increasing times and policy weights, the fold reports each title's effective kind. */
  lemma LogEffective(events: seq<Event>, d: Decay, out: map<int, Signal>, title: int)
    requires Tidy(events) && IsFold(events, d, out)
    ensures AllSupported(HistoryOf(events, title))
    ensures EffectiveOf(HistoryOf(events, title)) == if title in out then Some(out[title].kind) else None
  {
    FoldUnique(events, d, out, FoldOf(events, d));
    FoldOfKinds(events, d, title);
  }

  // ---- The views agree ----

  /** The last event that set a state. */
  function LastDurable(h: seq<EventKind>): (r: Option<EventKind>)
    requires AllSupported(h)
    ensures r.Some? ==> Supported(r.value) && PolicyOf(r.value).state.Some?
  {
    if h == [] then None
    else if PolicyOf(Last(h)).state.Some? then Some(Last(h))
    else LastDurable(Front(h))
  }

  /** The state row is the one of the last state-setting event, and what came after left weaker traces only. */
  lemma DurableFacts(h: seq<EventKind>)
    requires AllSupported(h)
    ensures LastDurable(h).Some? ==> StateOf(h) == PolicyOf(LastDurable(h).value).state
    ensures LastDurable(h).None? ==> StateOf(h).None? || StateOf(h) == Some(InNone)
    ensures LastDurable(h).Some? && LastDurable(h).value != Clear
            && AffectsTaste(LastDurable(h).value, PolicyOf(LastDurable(h).value).weight)
            ==> EffectiveOf(h).Some?
    ensures LastDurable(h).Some? && PolicyOf(LastDurable(h).value).tier == 3 ==> EffectiveOf(h) == LastDurable(h)
    ensures LastDurable(h).Some? && PolicyOf(LastDurable(h).value).isRating ==> NewestRating(h) == LastDurable(h)
  {
    DurableState(h);
    DurableSignal(h);
  }

  lemma {:induction false} DurableState(h: seq<EventKind>)
    requires AllSupported(h)
    ensures LastDurable(h).Some? ==> StateOf(h) == PolicyOf(LastDurable(h).value).state
    ensures LastDurable(h).None? ==> StateOf(h).None? || StateOf(h) == Some(InNone)
    ensures LastDurable(h).Some? && PolicyOf(LastDurable(h).value).isRating ==> NewestRating(h) == LastDurable(h)
  {
    if h != [] {
      DurableState(Front(h));
    }
  }

  lemma {:induction false} DurableSignal(h: seq<EventKind>)
    requires AllSupported(h)
    ensures LastDurable(h).Some? && LastDurable(h).value != Clear
            && AffectsTaste(LastDurable(h).value, PolicyOf(LastDurable(h).value).weight)
            ==> EffectiveOf(h).Some?
    ensures LastDurable(h).Some? && PolicyOf(LastDurable(h).value).tier == 3 ==> EffectiveOf(h) == LastDurable(h)
  {
    if h != [] {
      DurableSignal(Front(h));
    }
  }

  /** The hidden states are those of the policies that exclude a title from the feed. */
  lemma FeedExcludedIsPolicy(state: TitleState)
    ensures FeedExcluded(Some(state))
            <==> exists k :: Supported(k) && PolicyOf(k).excludes && PolicyOf(k).state == Some(state)
  {
    if FeedExcluded(Some(state)) {
      var k := match state
        case InDislike => Rate1
        case InRated => Mid
        case InLike => Rate3
        case InNotInterested => NotInterested
        case InWatchlist => EventKind.Watchlist
        case _ => Watched;
      assert Supported(k) && PolicyOf(k).excludes && PolicyOf(k).state == Some(state);
    }
  }

  /** A title hidden from the feed always carries an effective signal. */
  lemma ExcludedHasSignal(h: seq<EventKind>)
    requires AllSupported(h) && FeedExcluded(StateOf(h))
    ensures EffectiveOf(h).Some?
  {
    DurableFacts(h);
  }

  /** The same statement for the stored rows and the fold the recompute uses. */
  lemma ExcludedRowsHaveSignals(log: Log, d: Decay, out: map<int, Signal>, title: int)
    requires RowsMatch(log) && Tidy(log.events) && IsFold(log.events, d, out)
    requires FeedExcluded(Row(log, title))
    ensures title in out
  {
    assert RowMatches(log, title);
    ExcludedHasSignal(HistoryOf(log.events, title));
    LogEffective(log.events, d, out, title);
  }

  /** Increasing times, and policy weights on every supported kind. */
  ghost predicate TidyRequests(requests: seq<Event>) {
    && (forall i | 0 <= i < |requests| && Supported(requests[i].kind) ::
          requests[i].weight == PolicyOf(requests[i].kind).weight)
    && (forall i, j | 0 <= i < j < |requests| :: requests[i].at < requests[j].at)
  }

  lemma {:induction false} RecordedTidy(requests: seq<Event>)
    requires TidyRequests(requests)
    ensures Tidy(Recorded(requests).events)
    ensures forall e | e in Recorded(requests).events :: e in requests
  {
    if requests != [] {
      var front, last := requests[..|requests| - 1], requests[|requests| - 1];
      RecordedTidy(front);
      var events := Recorded(front).events;
      assert forall e | e in events :: e in front;
      forall i | 0 <= i < |events|
        ensures events[i].at < last.at
      {
        assert events[i] in front;
        var j :| 0 <= j < |front| && front[j] == events[i];
        assert requests[j].at < requests[|front|].at;
      }
    }
  }

  /** After every run with policy weights and increasing times, a title hidden from the feed has an effective signal. */
  lemma RunExcludedHaveSignals(requests: seq<Event>, d: Decay, out: map<int, Signal>, title: int)
    requires TidyRequests(requests) && IsFold(Recorded(requests).events, d, out)
    requires FeedExcluded(Row(Recorded(requests), title))
    ensures title in out
  {
    RunKeepsRows(requests);
    RecordedTidy(requests);
    ExcludedRowsHaveSignals(Recorded(requests), d, out, title);
  }

  lemma {:induction false} NewestIsLaterThanClear(h: seq<EventKind>)
    requires AllSupported(h)
    ensures LastDurable(h) == Some(Clear) ==> NewestRating(h).None?
  {
    if h != [] {
      NewestIsLaterThanClear(Front(h));
    }
  }

  /** A reported rating is the effective event exactly when the last state-setting event was that rating. */
  lemma RatingIsEffectiveIff(h: seq<EventKind>)
    requires AllSupported(h) && StatusOf(h).rating.Some?
    ensures EffectiveOf(h) == StatusOf(h).rating <==> LastDurable(h) == StatusOf(h).rating
  {
    DurableFacts(h);
    assert LastDurable(h).Some?;
    var k := LastDurable(h).value;
    assert PolicyOf(k).tier == 3;
  }

  /** Histories without the like, dislike and watched_* shortcuts, and without implicit events. */
  ghost predicate Plain(h: seq<EventKind>) {
    forall i | 0 <= i < |h| ::
      h[i] in {Rate1, Rate2, Mid, Rate3, Rate4, HaventSeen, NotInterested, Watchlist, Clear, Watched}
  }

  lemma {:induction false} PlainDurable(h: seq<EventKind>)
    requires Plain(h) && h != []
    ensures AllSupported(h) && LastDurable(h) == Some(Last(h))
  {}

  /** In such histories every reported rating is the effective event. */
  lemma PlainRatingIsEffective(h: seq<EventKind>)
    requires Plain(h)
    ensures AllSupported(h)
    ensures StatusOf(h).rating.Some? ==> EffectiveOf(h) == StatusOf(h).rating
  {
    if h != [] {
      PlainDurable(h);
      DurableFacts(h);
    }
  }

  // ---- Undo ----

  /** The single event that recreates a status. */
  function EventFor(s: Status): Option<EventKind> {
    if s.rating.Some? then s.rating
    else match s.state
         case Some(InWatchlist) => Some(Watchlist)
         case Some(InNotInterested) => Some(NotInterested)
         case Some(InWatched) => Some(Watched)
         case Some(InLike) => Some(Like)
         case Some(InDislike) => Some(Dislike)
         case _ => None
  }

  /** Clear, then the event that recreates the earlier status. */
  function Undo(h: seq<EventKind>, target: Status): seq<EventKind> {
    h + [Clear] + match EventFor(target) case Some(k) => [k] case None => []
  }

  lemma AfterClear(h: seq<EventKind>, k: Option<EventKind>)
    requires AllSupported(h) && (k.Some? ==> Supported(k.value))
    ensures var u := h + [Clear] + (match k case Some(x) => [x] case None => []);
            && AllSupported(u)
            && StateOf(u) == (match k case Some(x) => Some(NextState(Some(InNone), x)) case None => Some(InNone))
            && NewestRating(u) == (if k.Some? && k.value != Clear && PolicyOf(k.value).isRating then k else None)
            && EffectiveOf(u) == (if k.Some? && k.value != Clear && AffectsTaste(k.value, PolicyOf(k.value).weight)
                                  then k else None)
  {
    var cleared := h + [Clear];
    assert Front(cleared) == h && Last(cleared) == Clear;
    if k.Some? {
      var u := cleared + [k.value];
      assert Front(u) == cleared && Last(u) == k.value;
    } else {
      assert cleared + [] == cleared;
    }
  }

  /** Which statuses a history can report. */
  lemma StatusShape(h: seq<EventKind>)
    requires AllSupported(h)
    ensures StatusOf(h).rating.None? ==> StatusOf(h).state != Some(InRated)
    ensures StatusOf(h).state != Some(InNone) && StatusOf(h).state != Some(InHaventSeen)
    ensures StatusOf(h).state.None? ==> StatusOf(h) == NO_STATUS
    ensures StatusOf(h).rating.Some?
            ==> Supported(StatusOf(h).rating.value) && PolicyOf(StatusOf(h).rating.value).isRating
  {
    DurableFacts(h);
  }

  /** Undo restores the earlier status exactly when its rating, if it has one, is of its state.
      Any events may lie between the earlier history and the undo. */
  lemma UndoRestoresIff(h: seq<EventKind>, more: seq<EventKind>)
    requires AllSupported(h) && AllSupported(more)
    ensures AllSupported(Undo(h + more, StatusOf(h)))
    ensures StatusOf(Undo(h + more, StatusOf(h))) == StatusOf(h)
            <==> (StatusOf(h).rating.Some? ==> PolicyOf(StatusOf(h).rating.value).state == StatusOf(h).state)
  {
    StatusShape(h);
    UndoneStatus(h + more, StatusOf(h));
    RecreatedIff(StatusOf(h));
  }

  /** Status reported after a clear and at most one event. */
  function Recreated(k: Option<EventKind>): Status
    requires k.Some? ==> Supported(k.value)
  {
    match k
    case None => NO_STATUS
    case Some(x) => Report(Some(NextState(Some(InNone), x)), if x != Clear && PolicyOf(x).isRating then k else None)
  }

  lemma UndoneStatus(h: seq<EventKind>, target: Status)
    requires AllSupported(h) && (EventFor(target).Some? ==> Supported(EventFor(target).value))
    ensures AllSupported(Undo(h, target)) && StatusOf(Undo(h, target)) == Recreated(EventFor(target))
  {
    AfterClear(h, EventFor(target));
  }

  lemma RecreatedIff(target: Status)
    requires EventFor(target).Some? ==> Supported(EventFor(target).value)
    requires target.rating.None? ==> target.state != Some(InRated) && target.state != Some(InNone)
                                     && target.state != Some(InHaventSeen)
    requires target.rating.Some? ==> PolicyOf(target.rating.value).isRating
    ensures Recreated(EventFor(target)) == target
            <==> (target.rating.Some? ==> PolicyOf(target.rating.value).state == target.state)
  {}

  /** Without shortcuts the undo always restores the status. */
  lemma PlainUndoRestores(h: seq<EventKind>, more: seq<EventKind>)
    requires Plain(h) && AllSupported(more)
    ensures AllSupported(h) && AllSupported(Undo(h + more, StatusOf(h)))
    ensures StatusOf(Undo(h + more, StatusOf(h))) == StatusOf(h)
  {
    if h != [] {
      PlainDurable(h);
      DurableFacts(h);
    }
    UndoRestoresIff(h, more);
  }

  lemma RatedThenLiked()
    ensures AllSupported([Rate1, Like]) && StatusOf([Rate1, Like]) == Status(Some(InLike), Some(Rate1))
  {
    var h := [Rate1, Like];
    assert Front(h) == [Rate1] && Front([Rate1]) == [];
    assert NewestRating([Rate1]) == Some(Rate1);
  }

  /** A rating of 1 followed by the like shortcut is reported as a liked title rated 1, and undo turns it into a
      dislike. */
  lemma UndoCanFlipState()
    ensures AllSupported([Rate1, Like]) && AllSupported(Undo([Rate1, Like, Watchlist], StatusOf([Rate1, Like])))
    ensures StatusOf([Rate1, Like]) == Status(Some(InLike), Some(Rate1))
    ensures StatusOf(Undo([Rate1, Like, Watchlist], StatusOf([Rate1, Like]))) == Status(Some(InDislike), Some(Rate1))
  {
    RatedThenLiked();
    UndoneStatus([Rate1, Like, Watchlist], StatusOf([Rate1, Like]));
  }

  // ---- The client's prediction ----

  /** What the page shows as state: a stored state name, or the raw event name the fallback branch uses. */
  datatype Shown = Stored(state: TitleState) | RawEvent(kind: EventKind)

  datatype ViewerStatus = ViewerStatus(shown: Option<Shown>, rating: Option<EventKind>)

  /** The status the page shows at once, without asking the server. */
  function StatusAfter(k: EventKind): ViewerStatus {
    match k
    case Clear => ViewerStatus(None, None)
    case Rate1 => ViewerStatus(Some(Stored(InDislike)), Some(k))
    case Rate3 => ViewerStatus(Some(Stored(InLike)), Some(k))
    case Rate4 => ViewerStatus(Some(Stored(InLike)), Some(k))
    case Rate2 => ViewerStatus(Some(Stored(InRated)), Some(k))
    case Mid => ViewerStatus(Some(Stored(InRated)), Some(k))
    case Watchlist => ViewerStatus(Some(Stored(InWatchlist)), None)
    case NotInterested => ViewerStatus(Some(Stored(InNotInterested)), None)
    case Watched => ViewerStatus(Some(Stored(InWatched)), None)
    case Like => ViewerStatus(Some(Stored(InLike)), None)
    case Dislike => ViewerStatus(Some(Stored(InDislike)), None)
    case HaventSeen => ViewerStatus(Some(Stored(InHaventSeen)), None)
    case _ => ViewerStatus(Some(RawEvent(k)), None)
  }

  /** A server status as the page holds it. */
  function AsShown(s: Status): ViewerStatus {
    ViewerStatus(match s.state case Some(st) => Some(Stored(st)) case None => None, s.rating)
  }

  /** Events the page can send. */
  predicate IsFeedback(k: EventKind) {
    Supported(k) && k !in {Skip, View}
  }

  /** The prediction is exactly the server's next report, for every feedback event, unless the event is "haven't seen"
      or a watched_* shortcut, or a like/dislike after an uncleared rating. */
  lemma PredictionExactIff(h: seq<EventKind>, k: EventKind)
    requires AllSupported(h) && IsFeedback(k)
    ensures AllSupported(h + [k])
    ensures StatusAfter(k) == AsShown(StatusOf(h + [k]))
            <==> k !in {HaventSeen, WatchedLiked, WatchedDisliked} && (k in {Like, Dislike} ==> NewestRating(h).None?)
  {
    assert Front(h + [k]) == h && Last(h + [k]) == k;
  }
}
