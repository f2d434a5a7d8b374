/** Walking the history by the cursor texts the handler hands out (recommendation_service.py `history`). */
module HistoryWalk {
  import opened Basics
  import opened HistoryCursor
  import opened HistoryPages

  /** One request as the client sees it: the cursor it sent and the answer, over the table at that moment. */
  datatype TextVisit = TextVisit(table: Table, cursor: string, answer: Answer)

  function Allowed(state: Option<TitleState>): set<TitleState> {
    if state.None? then VISIBLE else {state.value}
  }

  /** A title row exists for every state row. */
  ghost predicate Linked(t: Table, catalog: set<int>) {
    forall id | id in t :: id in catalog
  }

  lemma TextNotEmpty(f: Formats, p: Position)
    ensures TextOf(f, p) != ""
  {}

  /** The answer to a good cursor is its page, and its `next` text leads to the page's own cursor. */
  lemma AnswerIsPage(f: Formats, t: Table, catalog: set<int>, limit: int, state: Option<TitleState>, cursor: string)
    requires f.Valid() && Linked(t, catalog) && (state.Some? ==> state.value in VISIBLE)
    requires !ParseCursor(f, cursor).BadCursor?
    ensures var a := AnswerFor(f, t, catalog, limit, state, cursor);
            var page := PageAt(t, Allowed(state), PageSize(limit), AsOption(ParseCursor(f, cursor)));
            && a.Listing? && a.rows == page.rows
            && (a.next == "" <==> page.next.None?)
            && (a.next != "" ==> ParseCursor(f, a.next) == FromAfter(page.next.value))
  {
    var from := AsOption(ParseCursor(f, cursor));
    var page := PageAt(t, Allowed(state), PageSize(limit), from);
    forall p | p in page.rows
      ensures p.id in catalog
    {
      PageInRemaining(Visit(t, from, page), Allowed(state), PageSize(limit), p);
    }
    AllTitlesKept(page.rows, catalog);
    if page.next.Some? {
      CursorLeadsBack(f, page.next.value);
      TextNotEmpty(f, page.next.value);
    }
  }

  /** Rows still to come after a cursor text. */
  ghost function Pending(f: Formats, t: Table, state: Option<TitleState>, cursor: string): nat {
    var param := ParseCursor(f, cursor);
    if param.BadCursor? then 0 else |After(Rows(t, Allowed(state)), AsOption(param))|
  }

  /** All pages from a cursor text on, following `next` until there is none. */
  ghost function FollowTexts(f: Formats, t: Table, catalog: set<int>, limit: int, state: Option<TitleState>,
                             cursor: string)
    : seq<Position>
    requires f.Valid() && Linked(t, catalog) && (state.Some? ==> state.value in VISIBLE)
    requires !ParseCursor(f, cursor).BadCursor?
    decreases Pending(f, t, state, cursor)
  {
    var a := AnswerFor(f, t, catalog, limit, state, cursor);
    AnswerIsPage(f, t, catalog, limit, state, cursor);
    StepSmaller(t, Allowed(state), PageSize(limit), AsOption(ParseCursor(f, cursor)));
    if a.next == "" then a.rows else a.rows + FollowTexts(f, t, catalog, limit, state, a.next)
  }

  lemma {:induction false} FollowIsWalk(
    f: Formats, t: Table, catalog: set<int>, limit: int, state: Option<TitleState>, cursor: string)
    requires f.Valid() && Linked(t, catalog) && (state.Some? ==> state.value in VISIBLE)
    requires !ParseCursor(f, cursor).BadCursor?
    ensures FollowTexts(f, t, catalog, limit, state, cursor)
            == WalkRows(t, Allowed(state), PageSize(limit), AsOption(ParseCursor(f, cursor)))
    decreases Pending(f, t, state, cursor)
  {
    var a := AnswerFor(f, t, catalog, limit, state, cursor);
    AnswerIsPage(f, t, catalog, limit, state, cursor);
    StepSmaller(t, Allowed(state), PageSize(limit), AsOption(ParseCursor(f, cursor)));
    if a.next != "" {
      FollowIsWalk(f, t, catalog, limit, state, a.next);
    }
  }

  /** With no writes in between, following the cursor texts from the first page yields exactly the filtered list,
      in order. */
  lemma TextsYieldWholeList(f: Formats, t: Table, catalog: set<int>, limit: int, state: Option<TitleState>)
    requires f.Valid() && Linked(t, catalog) && (state.Some? ==> state.value in VISIBLE)
    ensures FollowTexts(f, t, catalog, limit, state, "") == Listed(Rows(t, Allowed(state)))
  {
    FollowIsWalk(f, t, catalog, limit, state, "");
    WalkIsWholeList(t, Allowed(state), PageSize(limit));
  }

  // ---- Walks by text while rows are re-stamped ----

  /** Every request is answered by the handler, sends the previous `next`, and only newer stamps are written in
      between. */
  ghost predicate IsTextWalk(
    f: Formats, catalog: set<int>, limit: int, state: Option<TitleState>, walk: seq<TextVisit>)
  {
    && (walk != [] ==> walk[0].cursor == "")
    && (forall i | 0 <= i < |walk| :: Linked(walk[i].table, catalog)
          && walk[i].answer == AnswerFor(f, walk[i].table, catalog, limit, state, walk[i].cursor))
    && (forall i | 0 <= i < |walk| - 1 :: Followed(f, walk[i], walk[i + 1]))
  }

  ghost predicate Followed(f: Formats, v: TextVisit, w: TextVisit) {
    && v.answer.Listing? && v.answer.next != "" && w.cursor == v.answer.next
    && (ParseCursor(f, w.cursor).FromAfter? ==> WritesAbove(v.table, w.table, ParseCursor(f, w.cursor).p))
  }

  ghost function AsVisit(f: Formats, limit: int, state: Option<TitleState>, v: TextVisit): Visit {
    var param := ParseCursor(f, v.cursor);
    var from := if param.BadCursor? then None else AsOption(param);
    Visit(v.table, from, PageAt(v.table, Allowed(state), PageSize(limit), from))
  }

  ghost function AsWalk(f: Formats, limit: int, state: Option<TitleState>, walk: seq<TextVisit>): (r: seq<Visit>)
    ensures |r| == |walk| && forall i | 0 <= i < |walk| :: r[i] == AsVisit(f, limit, state, walk[i])
  {
    seq(|walk|, i requires 0 <= i < |walk| => AsVisit(f, limit, state, walk[i]))
  }

  /** Each request of a walk by text shows the page of the corresponding position. */
  lemma TextVisitIsVisit(f: Formats, catalog: set<int>, limit: int, state: Option<TitleState>, v: TextVisit)
    requires f.Valid() && (state.Some? ==> state.value in VISIBLE) && Linked(v.table, catalog)
    requires !ParseCursor(f, v.cursor).BadCursor?
    requires v.answer == AnswerFor(f, v.table, catalog, limit, state, v.cursor)
    ensures v.answer.Listing? && v.answer.rows == AsVisit(f, limit, state, v).page.rows
    ensures v.answer.next == "" <==> AsVisit(f, limit, state, v).page.next.None?
    ensures v.answer.next != ""
            ==> ParseCursor(f, v.answer.next) == FromAfter(AsVisit(f, limit, state, v).page.next.value)
  {
    AnswerIsPage(f, v.table, catalog, limit, state, v.cursor);
  }

  lemma {:induction false} GoodCursors(
    f: Formats, catalog: set<int>, limit: int, state: Option<TitleState>, walk: seq<TextVisit>, i: nat)
    requires f.Valid() && (state.Some? ==> state.value in VISIBLE) && IsTextWalk(f, catalog, limit, state, walk)
    requires i < |walk|
    ensures !ParseCursor(f, walk[i].cursor).BadCursor?
  {
    if i > 0 {
      GoodCursors(f, catalog, limit, state, walk, i - 1);
      TextVisitIsVisit(f, catalog, limit, state, walk[i - 1]);
      assert Followed(f, walk[i - 1], walk[i - 1 + 1]);
    }
  }

  /** A walk by cursor texts is a walk by positions, so what holds of those holds of it. */
  lemma TextWalkIsWalk(f: Formats, catalog: set<int>, limit: int, state: Option<TitleState>, walk: seq<TextVisit>)
    requires f.Valid() && (state.Some? ==> state.value in VISIBLE) && IsTextWalk(f, catalog, limit, state, walk)
    ensures IsWalk(AsWalk(f, limit, state, walk), Allowed(state), PageSize(limit))
    ensures forall i | 0 <= i < |walk| ::
              && walk[i].answer.Listing?
              && walk[i].answer.rows == AsWalk(f, limit, state, walk)[i].page.rows
              && (walk[i].answer.next == "" <==> AsWalk(f, limit, state, walk)[i].page.next.None?)
  {
    var positions := AsWalk(f, limit, state, walk);
    forall i | 0 <= i < |walk|
      ensures walk[i].answer.Listing? && walk[i].answer.rows == positions[i].page.rows
      ensures walk[i].answer.next == "" <==> positions[i].page.next.None?
    {
      GoodCursors(f, catalog, limit, state, walk, i);
      TextVisitIsVisit(f, catalog, limit, state, walk[i]);
    }
    forall i | 0 <= i < |walk| - 1
      ensures Continues(positions[i], positions[i + 1])
    {
      GoodCursors(f, catalog, limit, state, walk, i);
      TextVisitIsVisit(f, catalog, limit, state, walk[i]);
      assert Followed(f, walk[i], walk[i + 1]);
    }
  }

  /** Following the cursor texts, no title is shown twice however often rows are re-stamped in between. */
  lemma TextNoTitleTwice(f: Formats, catalog: set<int>, limit: int, state: Option<TitleState>, walk: seq<TextVisit>,
                         j: nat, i: nat, p: Position, q: Position)
    requires f.Valid() && (state.Some? ==> state.value in VISIBLE) && IsTextWalk(f, catalog, limit, state, walk)
    requires j < i < |walk| && walk[j].answer.Listing? && walk[i].answer.Listing?
    requires p in walk[j].answer.rows && q in walk[i].answer.rows
    ensures p.id != q.id
  {
    TextWalkIsWalk(f, catalog, limit, state, walk);
    NoTitleTwice(AsWalk(f, limit, state, walk), Allowed(state), PageSize(limit), j, i, p, q);
  }

  /** The row of a title is the same at every request. */
  ghost predicate UntouchedText(walk: seq<TextVisit>, id: int) {
    && (forall i | 0 <= i < |walk| :: id in walk[i].table)
    && (forall i | 0 <= i < |walk| :: walk[i].table[id] == walk[0].table[id])
  }

  lemma UntouchedPositions(f: Formats, limit: int, state: Option<TitleState>, walk: seq<TextVisit>, id: int)
    requires UntouchedText(walk, id) && walk != []
    ensures var positions := AsWalk(f, limit, state, walk);
            Untouched(positions, id) && positions[0].table[id] == walk[0].table[id]
  {
    var positions := AsWalk(f, limit, state, walk);
    forall i | 0 <= i < |positions|
      ensures id in positions[i].table && positions[i].table[id] == walk[0].table[id]
    {
      assert positions[i].table == walk[i].table;
    }
  }

  /** When the texts run out, every untouched visible row has been shown. */
  lemma TextUntouchedShown(f: Formats, catalog: set<int>, limit: int, state: Option<TitleState>, walk: seq<TextVisit>,
                           id: int)
    requires f.Valid() && (state.Some? ==> state.value in VISIBLE) && IsTextWalk(f, catalog, limit, state, walk)
    requires walk != [] && walk[|walk| - 1].answer.Listing? && walk[|walk| - 1].answer.next == ""
    requires UntouchedText(walk, id) && walk[0].table[id].state in Allowed(state)
    ensures exists i :: 0 <= i < |walk| && walk[i].answer.Listing?
                        && Position(walk[0].table[id].at, id) in walk[i].answer.rows
  {
    var positions := AsWalk(f, limit, state, walk);
    TextWalkIsWalk(f, catalog, limit, state, walk);
    UntouchedPositions(f, limit, state, walk, id);
    UntouchedShown(positions, Allowed(state), PageSize(limit), id);
    var i :| 0 <= i < |positions| && Position(walk[0].table[id].at, id) in positions[i].page.rows;
    assert walk[i].answer.rows == positions[i].page.rows;
  }
}
