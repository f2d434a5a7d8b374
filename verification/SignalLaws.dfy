/** Laws of the log fold: it is determined by the log, blind to input order, local under appends, and decays gently. */
module SignalLaws {
  import opened Basics
  import opened Folds
  import opened TasteSignals

  /** The declarative meaning leaves exactly one result. */
  lemma FoldUnique(events: seq<Event>, d: Decay, a: map<int, Signal>, b: map<int, Signal>)
    requires IsFold(events, d, a) && IsFold(events, d, b)
    ensures a == b
  {
    forall t | t in a
      ensures t in b && b[t] == a[t]
    {
      SameWinner(events, d, a, b, t);
    }
    forall t | t in b
      ensures t in a
    {
      SameWinner(events, d, b, a, t);
    }
  }

  lemma SameWinner(events: seq<Event>, d: Decay, a: map<int, Signal>, b: map<int, Signal>, t: int)
    requires IsFold(events, d, a) && IsFold(events, d, b) && t in a
    ensures t in b && b[t] == a[t]
  {
    var i: nat :| Wins(events, i) && events[i].title == t && a[t] == SignalOf(events[i], d);
    SameSignal(events, d, b, i);
  }

  lemma OneWinner(events: seq<Event>, i: nat, j: nat)
    requires Wins(events, i) && Wins(events, j) && events[i].title == events[j].title
    ensures i == j
  {
    assert Beats(events, i, j) && Beats(events, j, i);
  }

  /** Any winner of a title names its signal. */
  lemma SameSignal(events: seq<Event>, d: Decay, out: map<int, Signal>, j: nat)
    requires IsFold(events, d, out) && Wins(events, j)
    ensures events[j].title in out && out[events[j].title] == SignalOf(events[j], d)
  {
    var t := events[j].title;
    assert Counts(events, j) && t in out;
    var i: nat :| Wins(events, i) && events[i].title == t && out[t] == SignalOf(events[i], d);
    OneWinner(events, i, j);
  }

  // ---- Input order ----

  ghost predicate DistinctTimes(events: seq<Event>) {
    forall i, j | 0 <= i < j < |events| :: events[i].at != events[j].at
  }

  lemma CountsByMembers(a: seq<Event>, b: seq<Event>, i: nat, j: nat)
    requires forall e :: e in a <==> e in b
    requires i < |a| && j < |b| && a[i] == b[j]
    ensures Counts(a, i) <==> Counts(b, j)
  {
    CountsCarries(a, b, i, j);
    CountsCarries(b, a, j, i);
  }

  lemma CountsCarries(a: seq<Event>, b: seq<Event>, i: nat, j: nat)
    requires forall e :: e in a <==> e in b
    requires i < |a| && j < |b| && a[i] == b[j]
    ensures Counts(a, i) ==> Counts(b, j)
  {
    if Counts(a, i) {
      forall c | 0 <= c < |b| && b[c].kind == Clear && b[c].title == b[j].title
        ensures b[c].at < b[j].at
      {
        assert b[c] in a;
        var c' :| 0 <= c' < |a| && a[c'] == b[c];
      }
    }
  }

  lemma WinnerCarries(a: seq<Event>, b: seq<Event>, i: nat) returns (j: nat)
    requires forall e :: e in a <==> e in b
    requires DistinctTimes(a) && DistinctTimes(b) && Wins(a, i)
    ensures Wins(b, j) && b[j] == a[i]
  {
    assert a[i] in b;
    j :| 0 <= j < |b| && b[j] == a[i];
    CountsByMembers(a, b, i, j);
    forall y: nat | Counts(b, y) && b[y].title == b[j].title
      ensures Beats(b, j, y)
    {
      assert b[y] in a;
      var x :| 0 <= x < |a| && a[x] == b[y];
      CountsByMembers(a, b, x, y);
      assert Beats(a, i, x);
    }
  }

  /** With distinct timestamps the fold depends only on which events there are, not on their order. */
  lemma OrderIndependent(a: seq<Event>, b: seq<Event>, now: Option<real>, halfLife: Option<real>, pow: real -> real,
                         x: map<int, Signal>, y: map<int, Signal>)
    requires multiset(a) == multiset(b) && DistinctTimes(a) && DistinctTimes(b)
    requires IsFold(a, Decay(Reference(a, now), halfLife, pow), x)
    requires IsFold(b, Decay(Reference(b, now), halfLife, pow), y)
    ensures x == y
  {
    SameMembers(a, b);
    SameReference(a, b, now);
    FoldsAgree(a, b, Decay(Reference(a, now), halfLife, pow), x, y);
  }

  lemma FoldsAgree(a: seq<Event>, b: seq<Event>, d: Decay, x: map<int, Signal>, y: map<int, Signal>)
    requires forall e :: e in a <==> e in b
    requires DistinctTimes(a) && DistinctTimes(b) && IsFold(a, d, x) && IsFold(b, d, y)
    ensures x == y
  {
    forall t | t in x
      ensures t in y && x[t] == y[t]
    {
      SignalCarries(a, b, d, x, y, t);
    }
    forall t | t in y
      ensures t in x
    {
      SignalCarries(b, a, d, y, x, t);
    }
  }

  lemma SignalCarries(a: seq<Event>, b: seq<Event>, d: Decay, x: map<int, Signal>, y: map<int, Signal>, t: int)
    requires forall e :: e in a <==> e in b
    requires DistinctTimes(a) && DistinctTimes(b) && IsFold(a, d, x) && IsFold(b, d, y) && t in x
    ensures t in y && x[t] == y[t]
  {
    var i: nat :| Wins(a, i) && a[i].title == t && x[t] == SignalOf(a[i], d);
    var j := WinnerCarries(a, b, i);
    SameSignal(b, d, y, j);
  }

  lemma SameReference(a: seq<Event>, b: seq<Event>, now: Option<real>)
    requires forall e :: e in a <==> e in b
    ensures Reference(a, now) == Reference(b, now)
  {
    assert b != [] ==> b[0] in a;
    if a != [] {
      assert a[0] in b;
      var x :| x in a && x.at == LatestTime(a);
      var y :| y in b && y.at == LatestTime(b);
      assert x in b && y in a;
    }
  }

  // ---- Appending a later event ----

  ghost predicate Later(events: seq<Event>, e: Event) {
    forall i | 0 <= i < |events| :: events[i].at < e.at
  }

  lemma CountsAfterAppend(events: seq<Event>, e: Event)
    requires Later(events, e)
    ensures forall i: nat | i < |events| ::
              Counts(events + [e], i) <==> Counts(events, i) && !(e.kind == Clear && e.title == events[i].title)
    ensures Counts(events + [e], |events|) <==> AffectsTaste(e.kind, e.weight)
  {
    var longer := events + [e];
    assert longer[|events|] == e;
    forall i: nat | i < |events|
      ensures Counts(longer, i) <==> Counts(events, i) && !(e.kind == Clear && e.title == events[i].title)
    {
      assert longer[i] == events[i];
      assert forall j | 0 <= j < |events| :: longer[j] == events[j];
    }
    assert forall j | 0 <= j < |events| :: longer[j] == events[j];
  }

  /** What the new event makes of its own title's signal: removed on a clear, replaced when the event counts and is
      not outranked, kept otherwise. */
  ghost function AfterAppend(out: map<int, Signal>, e: Event, d: Decay): map<int, Signal>
    requires forall t | t in out :: Supported(out[t].kind)
  {
    if e.kind == Clear then out - {e.title}
    else if AffectsTaste(e.kind, e.weight)
            && (e.title !in out || PolicyOf(e.kind).tier >= PolicyOf(out[e.title].kind).tier)
    then out[e.title := SignalOf(e, d)]
    else out
  }

  lemma FoldSupported(events: seq<Event>, d: Decay, out: map<int, Signal>)
    requires IsFold(events, d, out)
    ensures forall t | t in out :: Supported(out[t].kind)
  {
    forall t | t in out
      ensures Supported(out[t].kind)
    {
      var i: nat :| Wins(events, i) && events[i].title == t && out[t] == SignalOf(events[i], d);
      assert Counts(events, i);
    }
  }

  /** A winner of another title, or one the new event neither clears nor outranks, wins on. */
  lemma WinsOn(events: seq<Event>, e: Event, i: nat)
    requires Later(events, e) && Wins(events, i)
    requires e.title != events[i].title
             || (e.kind != Clear && (AffectsTaste(e.kind, e.weight) ==> Rank(e) < Rank(events[i])))
    ensures Wins(events + [e], i)
  {
    var longer := events + [e];
    CountsAfterAppend(events, e);
    assert Counts(events, i);
    forall j: nat | Counts(longer, j) && longer[j].title == longer[i].title
      ensures Beats(longer, i, j)
    {
      if j < |events| {
        assert Counts(events, j) && Beats(events, i, j);
      }
    }
  }

  lemma NewWins(events: seq<Event>, e: Event, d: Decay, out: map<int, Signal>)
    requires Later(events, e) && IsFold(events, d, out) && AffectsTaste(e.kind, e.weight)
    requires e.title in out ==> Supported(out[e.title].kind) && Rank(e) >= PolicyOf(out[e.title].kind).tier
    ensures Wins(events + [e], |events|)
  {
    var longer := events + [e];
    CountsAfterAppend(events, e);
    forall j: nat | Counts(longer, j) && longer[j].title == e.title
      ensures Beats(longer, |events|, j)
    {
      if j < |events| {
        assert Counts(events, j);
        var i: nat :| Wins(events, i) && events[i].title == e.title && out[e.title] == SignalOf(events[i], d);
        assert Beats(events, i, j);
      }
    }
  }

  /** For a fixed reference time, a strictly later event changes only its own title's signal. */
  lemma AppendLater(events: seq<Event>, e: Event, d: Decay, out: map<int, Signal>)
    requires Later(events, e) && IsFold(events, d, out)
    requires forall t | t in out :: Supported(out[t].kind)
    ensures IsFold(events + [e], d, AfterAppend(out, e, d))
  {
    var longer, after := events + [e], AfterAppend(out, e, d);
    forall i: nat | Counts(longer, i)
      ensures longer[i].title in after
    {
      CountedKept(events, e, d, out, i);
    }
    forall t | t in after
      ensures exists i: nat :: Wins(longer, i) && longer[i].title == t && after[t] == SignalOf(longer[i], d)
    {
      var i := SignalAfter(events, e, d, out, t);
    }
  }

  lemma CountedKept(events: seq<Event>, e: Event, d: Decay, out: map<int, Signal>, i: nat)
    requires Later(events, e) && IsFold(events, d, out)
    requires forall t | t in out :: Supported(out[t].kind)
    requires Counts(events + [e], i)
    ensures (events + [e])[i].title in AfterAppend(out, e, d)
  {
    CountsAfterAppend(events, e);
    if i < |events| {
      assert Counts(events, i) && (events + [e])[i] == events[i];
    }
  }

  /** The event behind each signal after the append. */
  lemma SignalAfter(events: seq<Event>, e: Event, d: Decay, out: map<int, Signal>, t: int) returns (i: nat)
    requires Later(events, e) && IsFold(events, d, out)
    requires forall t | t in out :: Supported(out[t].kind)
    requires t in AfterAppend(out, e, d)
    ensures Wins(events + [e], i) && (events + [e])[i].title == t
    ensures AfterAppend(out, e, d)[t] == SignalOf((events + [e])[i], d)
  {
    if t == e.title && e.kind != Clear && AffectsTaste(e.kind, e.weight)
       && (t !in out || PolicyOf(e.kind).tier >= PolicyOf(out[t].kind).tier) {
      NewWins(events, e, d, out);
      i := |events|;
    } else {
      AfterAppendKeeps(out, e, d, t);
      i :| Wins(events, i) && events[i].title == t && out[t] == SignalOf(events[i], d);
      assert Counts(events, i);
      WinsOn(events, e, i);
    }
  }

  lemma AfterAppendKeeps(out: map<int, Signal>, e: Event, d: Decay, t: int)
    requires forall t | t in out :: Supported(out[t].kind)
    requires t in AfterAppend(out, e, d)
    requires !(t == e.title && e.kind != Clear && AffectsTaste(e.kind, e.weight)
               && (t !in out || PolicyOf(e.kind).tier >= PolicyOf(out[t].kind).tier))
    ensures t in out && AfterAppend(out, e, d)[t] == out[t]
    ensures t == e.title
            ==> e.kind != Clear && (AffectsTaste(e.kind, e.weight) ==> Rank(e) < PolicyOf(out[t].kind).tier)
  {}

  // ---- Decay ----

  lemma FactorInRange(at: real, d: Decay)
    requires ValidPow(d.pow)
    ensures 0.0 < Factor(at, d) <= 1.0
  {
    if d.reference.Some? && d.halfLife.Some? && d.halfLife.value > 0.0 {
      Quotient(MaxReal(d.reference.value - at, 0.0), d.halfLife.value);
    }
  }

  lemma Quotient(x: real, y: real)
    requires x >= 0.0 && y > 0.0
    ensures x / y >= 0.0
  {}

  /** Same sign, no larger. */
  predicate Shrinks(w: real, scaled: real) {
    && (w > 0.0 ==> 0.0 < scaled <= w)
    && (w < 0.0 ==> w <= scaled < 0.0)
    && (w == 0.0 ==> scaled == 0.0)
    && Abs(scaled) <= Abs(w)
  }

  lemma ScaledShrinks(w: real, f: real)
    requires 0.0 < f <= 1.0
    ensures Shrinks(w, w * f)
  {
    if w > 0.0 {
      assert 0.0 < w * f <= w;
    } else if w < 0.0 {
      assert w <= w * f < 0.0;
    }
  }

  /** Decay keeps the sign of a weight and never increases its magnitude, for any reference and half-life. */
  lemma DecayShrinks(e: Event, d: Decay)
    requires ValidPow(d.pow)
    ensures Shrinks(e.weight, SignalOf(e, d).weight)
    ensures SignalOf(e, d).rawWeight == e.weight
  {
    var f := Factor(e.at, d);
    FactorInRange(e.at, d);
    ScaledShrinks(e.weight, f);
  }
}
