/** Keyset pagination of the history page, newest first (recommendation_service.py `history`). */
module HistoryPages {
  import opened Basics
  import opened HistoryCursor
  import TasteSignals

  type TitleState = TasteSignals.TitleState

  /** Sort key of a row: (updated_at, title_id). */
  datatype Position = Position(at: int, id: int)

  datatype Stored = Stored(at: int, state: TitleState)

  /** One user's state rows; a title has at most one. */
  type Table = map<int, Stored>

  /** a is listed before b: updated_at DESC, title_id DESC. */
  predicate Above(a: Position, b: Position) {
    a.at > b.at || (a.at == b.at && a.id > b.id)
  }

  const VISIBLE: set<TitleState> :=
    {TasteSignals.InLike, TasteSignals.InDislike, TasteSignals.InWatchlist, TasteSignals.InNotInterested,
     TasteSignals.InRated, TasteSignals.InWatched}

  function Rows(t: Table, allowed: set<TitleState>): set<Position> {
    set id | id in t && t[id].state in allowed :: Position(t[id].at, id)
  }

  /** The keyset filter: strictly after the cursor in list order. */
  function After(S: set<Position>, cursor: Option<Position>): set<Position> {
    match cursor
    case None => S
    case Some(c) => set p | p in S && Above(c, p)
  }

  // ---- The ordered query ----

  ghost predicate IsTop(S: set<Position>, p: Position) {
    p in S && forall q | q in S :: q == p || Above(p, q)
  }

  lemma TopExists(S: set<Position>)
    requires S != {}
    ensures exists p :: IsTop(S, p)
    decreases |S|
  {
    var x := Pick(S);
    assert forall q | q in S :: q == x || q in S - {x};
    if S - {x} == {} {
      assert IsTop(S, x);
    } else {
      TopExists(S - {x});
      var y :| IsTop(S - {x}, y);
      assert IsTop(S, if Above(x, y) then x else y);
    }
  }

  ghost function Top(S: set<Position>): (p: Position)
    requires S != {}
    ensures IsTop(S, p)
  {
    TopExists(S);
    var p :| IsTop(S, p);
    p
  }

  /** The rows in list order: newest first, ties by descending title id. */
  ghost function Listed(S: set<Position>): (r: seq<Position>)
    ensures |r| == |S|
    decreases |S|
  {
    if S == {} then [] else [Top(S)] + Listed(S - {Top(S)})
  }

  ghost function Query(S: set<Position>, limit: nat): seq<Position> {
    Listed(S)[..Min(|S|, limit)]
  }

  ghost predicate Descends(s: seq<Position>) {
    forall i, j | 0 <= i < j < |s| :: Above(s[i], s[j])
  }

  lemma ElemsCons(x: Position, s: seq<Position>)
    ensures Elems([x] + s) == {x} + Elems(s)
  {}

  lemma DescendsCons(x: Position, s: seq<Position>)
    requires Descends(s) && forall q | q in s :: Above(x, q)
    ensures Descends([x] + s)
  {}

  lemma {:induction false} ListedFacts(S: set<Position>)
    ensures Elems(Listed(S)) == S
    ensures Descends(Listed(S))
    decreases |S|
  {
    if S != {} {
      var top := Top(S);
      var rest := Listed(S - {top});
      ListedFacts(S - {top});
      ElemsCons(top, rest);
      forall q | q in rest
        ensures Above(top, q)
      {
        assert q in Elems(rest);
      }
      DescendsCons(top, rest);
    }
  }

  lemma DescendsHead(a: seq<Position>, q: Position)
    requires Descends(a) && q in a
    ensures q == a[0] || Above(a[0], q)
  {}

  lemma DescendsTail(a: seq<Position>)
    requires Descends(a) && a != []
    ensures Descends(a[1..]) && Elems(a[1..]) == Elems(a) - {a[0]}
  {
    assert a == [a[0]] + a[1..];
  }

  /** A set has only one descending listing. */
  lemma {:induction false} DescendsUnique(a: seq<Position>, b: seq<Position>)
    requires Descends(a) && Descends(b) && Elems(a) == Elems(b)
    ensures a == b
  {
    assert b != [] ==> b[0] in Elems(b);
    if a == [] {
    } else {
      assert a[0] in Elems(a) && a[0] in b;
      assert b[0] in Elems(b) && b[0] in a;
      DescendsHead(a, b[0]);
      DescendsHead(b, a[0]);
      DescendsTail(a);
      DescendsTail(b);
      DescendsUnique(a[1..], b[1..]);
      assert a == [a[0]] + a[1..] && b == [b[0]] + b[1..];
    }
  }

  lemma DescendsCut(a: seq<Position>, k: nat)
    requires Descends(a) && k <= |a|
    ensures Descends(a[k..]) && Elems(a[k..]) == Elems(a) - Elems(a[..k])
  {
    assert a == a[..k] + a[k..];
    forall p | p in a[k..]
      ensures p !in a[..k]
    {
      var j :| 0 <= j < |a[k..]| && a[k..][j] == p;
      forall i | 0 <= i < k
        ensures a[..k][i] != p
      {
        assert Above(a[i], a[k + j]);
      }
    }
  }

  /** The rest of a listing is the listing of the rest. */
  lemma ListedTail(S: set<Position>, k: nat)
    requires k <= |S|
    ensures Listed(S)[k..] == Listed(S - Elems(Listed(S)[..k]))
  {
    var all := Listed(S);
    var rest := S - Elems(all[..k]);
    ListedFacts(S);
    DescendsCut(all, k);
    ListedFacts(rest);
    DescendsUnique(all[k..], Listed(rest));
  }

  // ---- One page ----

  function PageSize(limit: int): nat {
    Max(1, Min(limit, 100))
  }

  datatype Page = Page(rows: seq<Position>, next: Option<Position>)

  /** One page over positions: at most `size` rows after the cursor, and a cursor when more remain. */
  ghost function PageAt(t: Table, allowed: set<TitleState>, size: nat, cursor: Option<Position>): Page
    requires size >= 1
  {
    var states := Query(After(Rows(t, allowed), cursor), size + 1);
    var page := states[..Min(|states|, size)];
    Page(page, if |states| > size then Some(page[|page| - 1]) else None)
  }

  datatype Answer = InvalidCursor | Listing(rows: seq<Position>, next: string)

  /** The instant a decoded timestamp denotes. */
  function InstantOf(s: Stamp): int {
    match s.offset case None => s.local case Some(o) => s.local - o
  }

  function TextOf(f: Formats, p: Position): string {
    EncodeCursor(f, Stamp(p.at, Some(0)), p.id)
  }

  ghost function Render(f: Formats, page: Page, catalog: set<int>): Answer {
    Listing(WithTitles(page.rows, catalog), match page.next case None => "" case Some(p) => TextOf(f, p))
  }

  /** The position a cursor parameter asks to continue after: none for an empty one, an error for a bad one. */
  datatype CursorParam = FromStart | FromAfter(p: Position) | BadCursor

  function ParseCursor(f: Formats, cursor: string): CursorParam {
    if cursor == "" then FromStart
    else match DecodeCursor(f, cursor)
      case Accepted(at, id) => FromAfter(Position(InstantOf(at), id))
      case _ => BadCursor
  }

  function AsOption(c: CursorParam): Option<Position>
    requires !c.BadCursor?
  {
    if c.FromStart? then None else Some(c.p)
  }

  /** What the handler answers, in terms of pages over positions; an empty `next` means no further page. */
  ghost function AnswerFor(f: Formats, t: Table, catalog: set<int>, limit: int, state: Option<TitleState>,
                           cursor: string): Answer
  {
    if state.Some? && state.value !in VISIBLE then Listing([], "")
    else
      var allowed := if state.None? then VISIBLE else {state.value};
      var param := ParseCursor(f, cursor);
      if param.BadCursor? then InvalidCursor
      else Render(f, PageAt(t, allowed, PageSize(limit), AsOption(param)), catalog)
  }

  /** Fetch one row more than a page, to learn whether more remain. */
  method FetchPage(f: Formats, t: Table, allowed: set<TitleState>, catalog: set<int>, size: nat,
                   cursor: Option<Position>, query: (set<Position>, nat) -> seq<Position>)
    returns (a: Answer)
    requires size >= 1 && query(After(Rows(t, allowed), cursor), size + 1)
             == Query(After(Rows(t, allowed), cursor), size + 1)
    ensures a == Render(f, PageAt(t, allowed, size, cursor), catalog)
  {
    var states := query(After(Rows(t, allowed), cursor), size + 1);
    var hasMore := |states| > size;
    var page := states[..Min(|states|, size)];
    if page == [] {
      return Listing([], "");
    }
    a := Listing(WithTitles(page, catalog), if hasMore then TextOf(f, page[|page| - 1]) else "");
  }

  /** The request handler; `query` is the database's ordered, limited select. */
  method History(f: Formats, t: Table, catalog: set<int>, limit: int, state: Option<TitleState>, cursor: string,
                 query: (set<Position>, nat) -> seq<Position>)
    returns (a: Answer)
    requires forall S, n :: query(S, n) == Query(S, n)
    ensures a == AnswerFor(f, t, catalog, limit, state, cursor)
  {
    var allowed := VISIBLE;
    if state.Some? {
      if state.value !in VISIBLE {
        return Listing([], "");
      }
      allowed := {state.value};
    }
    var param := ParseCursor(f, cursor);
    if param.BadCursor? {
      return InvalidCursor;
    }
    a := FetchPage(f, t, allowed, catalog, PageSize(limit), AsOption(param), query);
  }

  /** Rows whose title row exists; a foreign key makes that all of them. */
  function WithTitles(page: seq<Position>, catalog: set<int>): seq<Position> {
    if page == [] then []
    else
      var last := page[|page| - 1];
      var r := WithTitles(page[..|page| - 1], catalog);
      if last.id in catalog then r + [last] else r
  }

  lemma {:induction false} AllTitlesKept(page: seq<Position>, catalog: set<int>)
    requires forall p | p in page :: p.id in catalog
    ensures WithTitles(page, catalog) == page
  {
    if page != [] {
      AllTitlesKept(page[..|page| - 1], catalog);
    }
  }

  /** A cursor text leads back to the position it was made from. */
  lemma CursorLeadsBack(f: Formats, p: Position)
    requires f.Valid()
    ensures ParseCursor(f, TextOf(f, p)) == FromAfter(p)
  {
    CursorRoundTrip(f, Stamp(p.at, Some(0)), p.id);
  }

  /** Cutting a descending list after `size` entries separates it at the last one kept. */
  lemma CutSplits(all: seq<Position>, size: nat)
    requires Descends(all) && 1 <= size <= |all|
    ensures forall p | p in all :: Above(all[size - 1], p) <==> p !in all[..size]
    ensures forall p | p in all[..size] :: !Above(all[size - 1], p)
  {
    forall p | p in all
      ensures Above(all[size - 1], p) <==> p !in all[..size]
    {
      var i :| 0 <= i < |all| && all[i] == p;
      if i < size {
        assert all[..size][i] == p;
        assert i == size - 1 || Above(all[i], all[size - 1]);
      } else {
        forall j | 0 <= j < size
          ensures all[..size][j] != p
        {
          assert Above(all[j], all[i]);
        }
      }
    }
  }

  lemma PageIsCut(t: Table, allowed: set<TitleState>, size: nat, cursor: Option<Position>)
    requires size >= 1
    ensures var S := After(Rows(t, allowed), cursor);
            var page := PageAt(t, allowed, size, cursor);
            && page.rows == Listed(S)[..Min(|S|, size)]
            && page.next == (if |S| > size then Some(Listed(S)[size - 1]) else None)
  {
    var S := After(Rows(t, allowed), cursor);
    var states := Query(S, size + 1);
    assert states[..Min(|states|, size)] == Listed(S)[..Min(|S|, size)];
  }

  /** A page is the top of what is after the cursor, and its own cursor separates it exactly from the rest. */
  lemma PageSplits(t: Table, allowed: set<TitleState>, size: nat, cursor: Option<Position>)
    requires size >= 1
    ensures var S := After(Rows(t, allowed), cursor);
            var page := PageAt(t, allowed, size, cursor);
            && page.rows == Listed(S)[..Min(|S|, size)]
            && Elems(page.rows) <= S
            && (page.next.None? ==> page.rows == Listed(S))
            && (page.next.Some? ==> page.next.value in S && page.rows != []
                                    && After(S, page.next) == S - Elems(page.rows)
                                    && forall p | p in page.rows :: !Above(page.next.value, p))
  {
    var S := After(Rows(t, allowed), cursor);
    var all := Listed(S);
    ListedFacts(S);
    PageIsCut(t, allowed, size, cursor);
    assert forall p :: p in all <==> p in Elems(all);
    if |S| > size {
      CutSplits(all, size);
      assert all[size - 1] in all;
    } else {
      assert all[..|S|] == all;
    }
  }

  // ---- Walking the pages while other requests write ----

  /** Between two requests rows may be added or re-stamped, with times newer than the cursor; none disappears. */
  ghost predicate WritesAbove(t: Table, t': Table, cursor: Position) {
    && (forall id | id in t :: id in t')
    && (forall id | id in t' && !(id in t && t'[id] == t[id]) :: t'[id].at > cursor.at)
  }

  /** One request of a walk: the table it saw, the cursor it sent, the page it got. */
  datatype Visit = Visit(table: Table, cursor: Option<Position>, page: Page)

  /** Every page is answered from its table, and request i + 1 continues where request i ended, with only writes
      above that point in between. */
  ghost predicate IsWalk(walk: seq<Visit>, allowed: set<TitleState>, size: nat)
    requires size >= 1
  {
    && (|walk| > 0 ==> walk[0].cursor == None)
    && (forall i | 0 <= i < |walk| :: walk[i].page == PageAt(walk[i].table, allowed, size, walk[i].cursor))
    && (forall i | 0 <= i < |walk| - 1 :: Continues(walk[i], walk[i + 1]))
  }

  ghost predicate Continues(v: Visit, w: Visit) {
    && v.page.next.Some?
    && w.cursor == v.page.next
    && WritesAbove(v.table, w.table, v.page.next.value)
  }

  /** Rows still to come when a request is sent. */
  ghost function Remaining(v: Visit, allowed: set<TitleState>): set<Position> {
    After(Rows(v.table, allowed), v.cursor)
  }

  /** What is left after a page is a part of what was left before it, less the page; it strictly decreases. */
  lemma RemainingShrinks(v: Visit, w: Visit, allowed: set<TitleState>, size: nat)
    requires size >= 1 && v.page == PageAt(v.table, allowed, size, v.cursor) && Continues(v, w)
    ensures Remaining(w, allowed) <= Remaining(v, allowed) - Elems(v.page.rows)
    ensures |Remaining(w, allowed)| < |Remaining(v, allowed)|
  {
    var before, after := Remaining(v, allowed), Remaining(w, allowed);
    PageSplits(v.table, allowed, size, v.cursor);
    forall p | p in after
      ensures p in before && p !in v.page.rows
    {
      assert Above(v.page.next.value, p);
      assert w.table[p.id] == v.table[p.id];
      assert p in Rows(v.table, allowed);
      if v.cursor.Some? {
        assert Above(v.cursor.value, v.page.next.value);
      }
      assert p in After(before, v.page.next);
    }
    assert v.page.rows[0] in Elems(v.page.rows);
    SubsetSize(after, before - {v.page.rows[0]});
  }

  lemma {:induction false} RemainingUnseen(walk: seq<Visit>, allowed: set<TitleState>, size: nat, j: nat, i: nat,
                                           p: Position)
    requires size >= 1 && IsWalk(walk, allowed, size) && j < i < |walk|
    requires p in Remaining(walk[i], allowed)
    ensures p in Remaining(walk[j], allowed) && p !in walk[j].page.rows
    decreases i
  {
    assert Continues(walk[i - 1], walk[i - 1 + 1]);
    RemainingShrinks(walk[i - 1], walk[i], allowed, size);
    if j < i - 1 {
      RemainingUnseen(walk, allowed, size, j, i - 1, p);
    } else {
      assert p !in Elems(walk[j].page.rows);
    }
  }

  lemma PageInRemaining(v: Visit, allowed: set<TitleState>, size: nat, p: Position)
    requires size >= 1 && v.page == PageAt(v.table, allowed, size, v.cursor) && p in v.page.rows
    ensures p in Remaining(v, allowed) && p.id in v.table && v.table[p.id].at == p.at
  {
    PageSplits(v.table, allowed, size, v.cursor);
    assert p in Elems(v.page.rows);
  }

  /** No title appears on two pages of a walk, however often its row is re-stamped in between. */
  lemma NoTitleTwice(walk: seq<Visit>, allowed: set<TitleState>, size: nat, j: nat, i: nat, p: Position, q: Position)
    requires size >= 1 && IsWalk(walk, allowed, size) && j < i < |walk|
    requires p in walk[j].page.rows && q in walk[i].page.rows
    ensures p.id != q.id
  {
    PageInRemaining(walk[j], allowed, size, p);
    PageInRemaining(walk[i], allowed, size, q);
    RemainingUnseen(walk, allowed, size, j, i, q);
    assert q.id in walk[j].table && walk[j].table[q.id].at == q.at;
  }

  /** Within one page a title appears once. */
  lemma NoTitleTwiceOnPage(v: Visit, allowed: set<TitleState>, size: nat, a: nat, b: nat)
    requires size >= 1 && v.page == PageAt(v.table, allowed, size, v.cursor) && a < b < |v.page.rows|
    ensures v.page.rows[a].id != v.page.rows[b].id
  {
    PageSplits(v.table, allowed, size, v.cursor);
    ListedFacts(Remaining(v, allowed));
    PageInRemaining(v, allowed, size, v.page.rows[a]);
    PageInRemaining(v, allowed, size, v.page.rows[b]);
    assert Above(Listed(Remaining(v, allowed))[a], Listed(Remaining(v, allowed))[b]);
  }

  /** The row of a title is the same at every request of the walk. */
  ghost predicate Untouched(walk: seq<Visit>, id: int) {
    && (forall i | 0 <= i < |walk| :: id in walk[i].table)
    && (forall i | 0 <= i < |walk| :: walk[i].table[id] == walk[0].table[id])
  }

  ghost predicate ShownBefore(walk: seq<Visit>, i: nat, p: Position)
    requires i <= |walk|
  {
    exists j :: 0 <= j < i && p in walk[j].page.rows
  }

  lemma {:induction false} UntouchedPending(walk: seq<Visit>, allowed: set<TitleState>, size: nat, i: nat, id: int)
    requires size >= 1 && IsWalk(walk, allowed, size) && i < |walk| && Untouched(walk, id)
    requires walk[0].table[id].state in allowed
    ensures var p := Position(walk[0].table[id].at, id);
            p in Remaining(walk[i], allowed) || ShownBefore(walk, i, p)
  {
    var p := Position(walk[0].table[id].at, id);
    assert p in Rows(walk[i].table, allowed);
    if i > 0 {
      UntouchedPending(walk, allowed, size, i - 1, id);
      if ShownBefore(walk, i - 1, p) {
        var j :| 0 <= j < i - 1 && p in walk[j].page.rows;
        assert ShownBefore(walk, i, p);
      } else if p in walk[i - 1].page.rows {
        assert ShownBefore(walk, i, p);
      } else {
        var v := walk[i - 1];
        assert Continues(v, walk[i - 1 + 1]);
        PageSplits(v.table, allowed, size, v.cursor);
        assert p in Remaining(v, allowed) - Elems(v.page.rows);
      }
    }
  }

  /** When the walk ends, every untouched visible row has been shown (and by NoTitleTwice on one page only). */
  lemma UntouchedShown(walk: seq<Visit>, allowed: set<TitleState>, size: nat, id: int)
    requires size >= 1 && IsWalk(walk, allowed, size) && |walk| > 0 && Untouched(walk, id)
    requires walk[0].table[id].state in allowed
    requires walk[|walk| - 1].page.next.None?
    ensures ShownBefore(walk, |walk|, Position(walk[0].table[id].at, id))
  {
    var last := walk[|walk| - 1];
    var p := Position(walk[0].table[id].at, id);
    UntouchedPending(walk, allowed, size, |walk| - 1, id);
    if ShownBefore(walk, |walk| - 1, p) {
      var j :| 0 <= j < |walk| - 1 && p in walk[j].page.rows;
      assert ShownBefore(walk, |walk|, p);
    } else {
      PageSplits(last.table, allowed, size, last.cursor);
      ListedFacts(Remaining(last, allowed));
      assert p in Elems(last.page.rows);
      assert ShownBefore(walk, |walk|, p);
    }
  }

  // ---- Walking an unchanging table ----

  /** All pages from a cursor on, one after the other. */
  ghost function WalkRows(t: Table, allowed: set<TitleState>, size: nat, cursor: Option<Position>): seq<Position>
    requires size >= 1
    decreases |After(Rows(t, allowed), cursor)|
  {
    var page := PageAt(t, allowed, size, cursor);
    StepSmaller(t, allowed, size, cursor);
    if page.next.None? then page.rows else page.rows + WalkRows(t, allowed, size, page.next)
  }

  lemma StepSmaller(t: Table, allowed: set<TitleState>, size: nat, cursor: Option<Position>)
    requires size >= 1
    ensures var page := PageAt(t, allowed, size, cursor);
            page.next.Some? ==>
              && After(Rows(t, allowed), page.next) == After(Rows(t, allowed), cursor) - Elems(page.rows)
              && |After(Rows(t, allowed), page.next)| < |After(Rows(t, allowed), cursor)|
  {
    var page := PageAt(t, allowed, size, cursor);
    PageSplits(t, allowed, size, cursor);
    if page.next.Some? {
      var S := After(Rows(t, allowed), cursor);
      assert After(Rows(t, allowed), page.next) == After(S, page.next);
      assert page.rows[0] in Elems(page.rows) && page.rows[0] in S;
      SubsetSize(After(S, page.next), S - {page.rows[0]});
    }
  }

  /** A page with a cursor is followed by the list of what it leaves. */
  lemma PageThenRest(t: Table, allowed: set<TitleState>, size: nat, cursor: Option<Position>)
    requires size >= 1 && PageAt(t, allowed, size, cursor).next.Some?
    ensures var page := PageAt(t, allowed, size, cursor);
            var S := After(Rows(t, allowed), cursor);
            Listed(S) == page.rows + Listed(S - Elems(page.rows))
  {
    var S := After(Rows(t, allowed), cursor);
    PageSplits(t, allowed, size, cursor);
    ListedRest(S, Min(|S|, size));
  }

  lemma ListedRest(S: set<Position>, k: nat)
    requires k <= |S|
    ensures k <= |Listed(S)| && Listed(S) == Listed(S)[..k] + Listed(S - Elems(Listed(S)[..k]))
  {
    ListedTail(S, k);
    TakeThenDrop(Listed(S), k);
  }

  lemma TakeThenDrop(s: seq<Position>, k: nat)
    requires k <= |s|
    ensures s == s[..k] + s[k..]
  {}

  lemma {:induction false} WalkFrom(t: Table, allowed: set<TitleState>, size: nat, cursor: Option<Position>)
    requires size >= 1
    ensures WalkRows(t, allowed, size, cursor) == Listed(After(Rows(t, allowed), cursor))
    decreases |After(Rows(t, allowed), cursor)|
  {
    var page := PageAt(t, allowed, size, cursor);
    if page.next.Some? {
      StepSmaller(t, allowed, size, cursor);
      WalkFrom(t, allowed, size, page.next);
      PageThenRest(t, allowed, size, cursor);
    } else {
      PageSplits(t, allowed, size, cursor);
    }
  }

  /** With no writes in between, following the cursors yields exactly the filtered list, in order, for every
      page size. */
  lemma WalkIsWholeList(t: Table, allowed: set<TitleState>, size: nat)
    requires size >= 1
    ensures WalkRows(t, allowed, size, None) == Listed(Rows(t, allowed))
  {
    WalkFrom(t, allowed, size, None);
  }

  // ---- What a page shows ----

  /** Rows are listed newest first, and of equal times the larger title id first. */
  lemma ListedNewestFirst(S: set<Position>, i: nat, j: nat)
    requires i < j < |S|
    ensures Listed(S)[i].at >= Listed(S)[j].at
    ensures Listed(S)[i].at == Listed(S)[j].at ==> Listed(S)[i].id > Listed(S)[j].id
    ensures Listed(S)[i] in S && Listed(S)[j] in S
  {
    ListedFacts(S);
    assert Listed(S)[i] in Listed(S) && Listed(S)[j] in Listed(S);
  }

  /** A page holds at most as many rows as asked for, never more than 100 and at least one while any remain; all of them
      are visible rows of the state asked for. */
  lemma PageMeaning(t: Table, allowed: set<TitleState>, limit: int, cursor: Option<Position>, p: Position)
    ensures var page := PageAt(t, allowed, PageSize(limit), cursor);
            && |page.rows| <= 100
            && (limit >= 1 ==> |page.rows| <= limit)
            && (After(Rows(t, allowed), cursor) != {} ==> |page.rows| >= 1)
            && (1 <= limit <= 100 && page.next.Some? ==> |page.rows| == limit)
            && (p in page.rows ==>
                  && p.id in t && t[p.id].at == p.at && t[p.id].state in allowed
                  && (cursor.Some? ==> p.at < cursor.value.at || (p.at == cursor.value.at && p.id < cursor.value.id)))
  {
    var rest := After(Rows(t, allowed), cursor);
    ListedFacts(rest);
    var page := PageAt(t, allowed, PageSize(limit), cursor);
    if p in page.rows {
      assert p in Listed(rest);
      assert p in rest;
    }
  }

  /** The history page hides exactly the titles a user has not seen and those whose state was cleared. */
  lemma HiddenStates(state: TitleState)
    ensures state !in VISIBLE <==> state == TasteSignals.InHaventSeen || state == TasteSignals.InNone
  {}

  /** Rows without a title are dropped, all others shown as often as they are listed. */
  lemma {:induction false} ShownRows(page: seq<Position>, catalog: set<int>, p: Position)
    ensures multiset(WithTitles(page, catalog))[p] == if p.id in catalog then multiset(page)[p] else 0
  {
    if page != [] {
      ShownRows(page[..|page| - 1], catalog, p);
      assert page == page[..|page| - 1] + [page[|page| - 1]];
    }
  }
}
