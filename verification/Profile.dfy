/** Taste profile building (profile.py): evidence is accumulated, clamped, normalised per family and blended. */
module Profile {
  import opened Basics
  import opened Folds
  import opened Sorting
  import opened Vectors
  import opened TasteSignals
  import opened FeatureNorms

  // ---- Evidence ----

  /** One snapshot entry; `None` is a value that is not a number. */
  datatype Entry = Entry(key: Key, value: Option<real>)

  datatype ProfileTitle = ProfileTitle(snapshot: seq<Entry>, embedding: Option<Vec>)

  predicate Counts(e: Entry) {
    e.value.Some? && !("__" <= e.key.text)
  }

  /** What the entries add to one feature. */
  function Contribution(entries: seq<Entry>, weight: real, key: Key): real {
    if entries == [] then 0.0
    else
      var last := entries[|entries| - 1];
      var front := Contribution(entries[..|entries| - 1], weight, key);
      if Counts(last) && last.key == key then front + last.value.value * weight else front
  }

  predicate Mentions(entries: seq<Entry>, key: Key) {
    exists i | 0 <= i < |entries| :: Counts(entries[i]) && entries[i].key == key
  }

  type Catalog = map<int, ProfileTitle>

  function Snapshot(titles: Catalog, s: Signal): seq<Entry> {
    if s.title in titles then titles[s.title].snapshot else []
  }

  function Share(titles: Catalog, key: Key): Signal -> real {
    s => Contribution(Snapshot(titles, s), s.weight, key)
  }

  /** Signed evidence for one feature: every signal's snapshot value times its weight, plus the imported value. */
  ghost function Evidence(signals: seq<Signal>, titles: Catalog, overlay: map<Key, real>, key: Key): real {
    SumOf(signals, Share(titles, key)) + if key in overlay then overlay[key] else 0.0
  }

  ghost predicate Known(signals: seq<Signal>, titles: Catalog, overlay: map<Key, real>, key: Key) {
    key in overlay || exists s | s in signals :: Mentions(Snapshot(titles, s), key)
  }

  /** `values` is the accumulated evidence, feature by feature. */
  ghost predicate IsAccumulated(signals: seq<Signal>, titles: Catalog, overlay: map<Key, real>,
                                values: map<Key, real>) {
    && (forall k: Key :: k in values <==> Known(signals, titles, overlay, k))
    && (forall k | k in values :: values[k] == Evidence(signals, titles, overlay, k))
  }

  const FEATURE_CAP := 4.5
  const FEATURE_MIN_ABS := 0.05

  function Clamp(value: real): real {
    MaxReal(if Round4(value) <= FEATURE_CAP then Round4(value) else FEATURE_CAP, -FEATURE_CAP)
  }

  function Clamped(values: map<Key, real>): map<Key, real> {
    map k | k in values && Abs(values[k]) > FEATURE_MIN_ABS :: Clamp(values[k])
  }

  /** Only positive signals shape the dense vector. */
  function Positives(signals: seq<Signal>, titles: Catalog): (r: seq<Weighted>) {
    if signals == [] then []
    else
      var s := signals[|signals| - 1];
      var front := Positives(signals[..|signals| - 1], titles);
      if s.weight > 0.0 && s.title in titles && titles[s.title].embedding.Some?
      then front + [Weighted(titles[s.title].embedding, s.weight)] else front
  }

  ghost predicate Embedded(titles: Catalog, dim: nat) {
    forall t | t in titles && titles[t].embedding.Some? :: |titles[t].embedding.value| in {0, dim}
  }

  lemma {:induction false} PositivesFit(signals: seq<Signal>, titles: Catalog, dim: nat)
    requires Embedded(titles, dim)
    ensures SameLength(Positives(signals, titles), dim)
  {
    if signals != [] {
      PositivesFit(signals[..|signals| - 1], titles, dim);
    }
  }

  /** Features of a profile, with the accumulated values and the order they were met in. */
  ghost predicate Explains(
    signals: seq<Signal>, titles: Catalog, overlay: map<Key, real>, c: Channels, root: real -> real,
    features: map<Key, real>, values: map<Key, real>, order: seq<Key>)
  {
    && IsAccumulated(signals, titles, overlay, values)
    && Dict(order, Clamped(values)).Valid()
    && features == Normalized(c, Dict(order, Clamped(values)), root)
  }

  /** What a profile of these signals is, whatever order anything was visited in. */
  ghost predicate IsProfile(
    signals: seq<Signal>, titles: Catalog, overlay: map<Key, real>, dim: nat, c: Channels, root: real -> real,
    features: map<Key, real>, vector: Option<Vec>)
    requires Embedded(titles, dim)
  {
    PositivesFit(signals, titles, dim);
    && vector == BlendVectors(Positives(signals, titles), dim, root)
    && exists values: map<Key, real>, order: seq<Key> ::
      Explains(signals, titles, overlay, c, root, features, values, order)
  }

  // ---- Building it ----

  /** Add a value to one feature, starting from 0. */
  function Bump(d: Dict, key: Key, value: real): (r: Dict)
    ensures d.Valid() ==> r.Valid()
  {
    d.Put(key, (if key in d.values then d.values[key] else 0.0) + value)
  }

  function At(d: Dict, key: Key): real {
    if key in d.values then d.values[key] else 0.0
  }

  /** `d` is `start` with the entries added. */
  ghost predicate Added(start: Dict, entries: seq<Entry>, weight: real, d: Dict) {
    && d.Valid()
    && (forall k: Key :: k in d.values <==> k in start.values || Mentions(entries, k))
    && (forall k: Key :: At(d, k) == At(start, k) + Contribution(entries, weight, k))
  }

  lemma AddedNext(start: Dict, front: seq<Entry>, e: Entry, weight: real, d: Dict, product: real)
    requires Added(start, front, weight, d) && (Counts(e) ==> product == e.value.value * weight)
    ensures Added(start, front + [e], weight, if Counts(e) then Bump(d, e.key, product) else d)
  {
    assert (front + [e])[..|front|] == front;
    var d' := if Counts(e) then Bump(d, e.key, product) else d;
    forall k: Key
      ensures k in d'.values <==> k in start.values || Mentions(front + [e], k)
      ensures At(d', k) == At(start, k) + Contribution(front + [e], weight, k)
    {
      MentionsNext(front, e, k);
      assert At(d, k) == At(start, k) + Contribution(front, weight, k);
    }
  }

  lemma MentionsNext(front: seq<Entry>, e: Entry, k: Key)
    ensures Mentions(front + [e], k) <==> Mentions(front, k) || (Counts(e) && e.key == k)
  {
    var whole := front + [e];
    if Mentions(front, k) {
      var i :| 0 <= i < |front| && Counts(front[i]) && front[i].key == k;
      assert whole[i] == front[i];
    }
    assert whole[|front|] == e;
  }

  /** One signal's snapshot folded into the accumulated features. */
  method AddSnapshot(start: Dict, entries: seq<Entry>, weight: real) returns (d: Dict)
    requires start.Valid()
    ensures Added(start, entries, weight, d)
  {
    d := start;
    for i := 0 to |entries|
      invariant Added(start, entries[..i], weight, d)
    {
      ghost var product := if Counts(entries[i]) then entries[i].value.value * weight else 0.0;
      AddedNext(start, entries[..i], entries[i], weight, d, product);
      assert entries[..i + 1] == entries[..i] + [entries[i]];
      if Counts(entries[i]) {
        d := Bump(d, entries[i].key, entries[i].value.value * weight);
      }
    }
    assert entries[..|entries|] == entries;
  }

  /** `d` holds the evidence of these signals. */
  ghost predicate Folded(signals: seq<Signal>, titles: Catalog, d: Dict) {
    && d.Valid()
    && (forall k: Key :: k in d.values <==> Known(signals, titles, map[], k))
    && (forall k: Key :: At(d, k) == SumOf(signals, Share(titles, k)))
  }

  lemma FoldedNext(front: seq<Signal>, s: Signal, titles: Catalog, d: Dict, d': Dict)
    requires Folded(front, titles, d) && Added(d, Snapshot(titles, s), s.weight, d')
    ensures Folded(front + [s], titles, d')
  {
    var whole := front + [s];
    assert whole[..|front|] == front;
    forall k: Key
      ensures k in d'.values <==> Known(whole, titles, map[], k)
      ensures At(d', k) == SumOf(whole, Share(titles, k))
    {
      KnownNext(front, s, titles, k);
      assert At(d', k) == At(d, k) + Share(titles, k)(s);
    }
  }

  lemma KnownNext(front: seq<Signal>, s: Signal, titles: Catalog, k: Key)
    ensures Known(front + [s], titles, map[], k) <==> Known(front, titles, map[], k) || Mentions(Snapshot(titles, s), k)
  {
    assert forall x :: x in front + [s] <==> x in front || x == s;
  }

  method Accumulate(signals: seq<Signal>, titles: Catalog, overlay: Dict) returns (d: Dict)
    requires overlay.Valid()
    ensures d.Valid() && IsAccumulated(signals, titles, overlay.values, d.values)
  {
    d := Dict([], map[]);
    for i := 0 to |signals|
      invariant Folded(signals[..i], titles, d)
    {
      ghost var before := d;
      if signals[i].title in titles {
        d := AddSnapshot(d, titles[signals[i].title].snapshot, signals[i].weight);
      }
      FoldedNext(signals[..i], signals[i], titles, before, d);
      assert signals[..i + 1] == signals[..i] + [signals[i]];
    }
    assert signals[..|signals|] == signals;
    ghost var evidence := d;
    d := AddOverlay(d, overlay);
    forall k: Key
      ensures k in d.values <==> Known(signals, titles, overlay.values, k)
      ensures At(d, k) == Evidence(signals, titles, overlay.values, k)
    {
      assert k in evidence.values <==> Known(signals, titles, map[], k);
      assert At(evidence, k) == SumOf(signals, Share(titles, k));
    }
  }

  method AddOverlay(start: Dict, overlay: Dict) returns (d: Dict)
    requires start.Valid() && overlay.Valid()
    ensures d.Valid()
    ensures forall k: Key :: k in d.values <==> k in start.values || k in overlay.values
    ensures forall k: Key :: At(d, k) == At(start, k) + At(overlay, k)
  {
    d := start;
    for i := 0 to |overlay.order|
      invariant d.Valid()
      invariant forall k: Key :: k in d.values <==> k in start.values || k in overlay.order[..i]
      invariant forall k: Key :: At(d, k) == At(start, k) + if k in overlay.order[..i] then At(overlay, k) else 0.0
    {
      var key := overlay.order[i];
      assert overlay.order[..i + 1] == overlay.order[..i] + [key];
      assert key !in overlay.order[..i];
      d := Bump(d, key, overlay.values[key]);
    }
    assert overlay.order[..|overlay.order|] == overlay.order;
  }

  method ClampAll(d: Dict) returns (r: Dict)
    requires d.Valid()
    ensures r.Valid() && r.values == Clamped(d.values)
  {
    r := Dict([], map[]);
    for i := 0 to |d.order|
      invariant r.Valid()
      invariant forall k: Key :: k in r.values <==> k in d.order[..i] && k in Clamped(d.values)
      invariant forall k | k in r.values :: r.values[k] == Clamped(d.values)[k]
    {
      var key := d.order[i];
      assert d.order[..i + 1] == d.order[..i] + [key];
      if Abs(d.values[key]) > FEATURE_MIN_ABS {
        r := r.Put(key, Clamp(d.values[key]));
      }
    }
    assert d.order[..|d.order|] == d.order;
  }

  const ANCHOR_MIN_WEIGHT := 0.85

  /** A strongly liked title of the catalog, cited when explaining a recommendation. */
  predicate IsAnchor(titles: Catalog, s: Signal) {
    s.title in titles && s.kind in {Rate3, Rate4, Like, WatchedLiked} && s.rawWeight >= ANCHOR_MIN_WEIGHT
  }

  function AnchorsOf(signals: seq<Signal>, titles: Catalog): seq<Signal> {
    if signals == [] then []
    else
      var front, last := AnchorsOf(signals[..|signals| - 1], titles), signals[|signals| - 1];
      if IsAnchor(titles, last) then front + [last] else front
  }

  lemma AnchorsNext(front: seq<Signal>, s: Signal, titles: Catalog)
    ensures AnchorsOf(front + [s], titles) == AnchorsOf(front, titles) + if IsAnchor(titles, s) then [s] else []
  {
    assert (front + [s])[..|front|] == front;
  }

  /** A signal is among the anchors as often as among the signals, if it is one. */
  lemma {:induction false} AnchorCount(signals: seq<Signal>, titles: Catalog, x: Signal)
    ensures multiset(AnchorsOf(signals, titles))[x] == if IsAnchor(titles, x) then multiset(signals)[x] else 0
  {
    if signals != [] {
      var front, s := signals[..|signals| - 1], signals[|signals| - 1];
      assert signals == front + [s];
      AnchorCount(front, titles, x);
      AnchorsNext(front, s, titles);
    }
  }

  /** Anchors are picked signal by signal, so reordering the signals only reorders them. */
  lemma AnchorsPermuted(a: seq<Signal>, b: seq<Signal>, titles: Catalog)
    requires multiset(a) == multiset(b)
    ensures multiset(AnchorsOf(a, titles)) == multiset(AnchorsOf(b, titles))
  {
    forall x: Signal
      ensures multiset(AnchorsOf(a, titles))[x] == multiset(AnchorsOf(b, titles))[x]
    {
      AnchorCount(a, titles, x);
      AnchorCount(b, titles, x);
    }
  }

  ghost predicate NewestFirst(signals: seq<Signal>) {
    forall i, j | 0 <= i < j < |signals| :: signals[i].at >= signals[j].at
  }

  lemma {:induction false} AnchorsNewestFirst(signals: seq<Signal>, titles: Catalog)
    requires NewestFirst(signals)
    ensures NewestFirst(AnchorsOf(signals, titles))
    ensures forall s | s in AnchorsOf(signals, titles) :: s in signals && IsAnchor(titles, s)
  {
    if signals != [] {
      var front, last := signals[..|signals| - 1], signals[|signals| - 1];
      AnchorsNewestFirst(front, titles);
      forall i | 0 <= i < |AnchorsOf(front, titles)|
        ensures AnchorsOf(front, titles)[i].at >= last.at
      {
        var s := AnchorsOf(front, titles)[i];
        assert s in front;
        var j :| 0 <= j < |front| && front[j] == s;
        assert signals[j].at >= signals[|front|].at;
      }
    }
  }

  /** Build the profile, most recent signal first. */
  method BuildProfile(signals: seq<Signal>, titles: Catalog, overlay: Dict, dim: nat, c: Channels, root: real -> real)
    returns (features: Dict, vector: Option<Vec>, anchors: seq<Signal>)
    requires overlay.Valid() && Embedded(titles, dim)
    ensures features.Valid()
    ensures IsProfile(signals, titles, overlay.values, dim, c, root, features.values, vector)
    ensures multiset(anchors) == multiset(AnchorsOf(signals, titles)) && NewestFirst(anchors)
  {
    var recent := MostRecentFirst(signals);
    var accumulated := Accumulate(recent, titles, overlay);
    var clamped := ClampAll(accumulated);
    features := NormalizeFeatureFamilies(c, clamped, root);
    PositivesFit(recent, titles, dim);
    vector := BlendVectors(Positives(recent, titles), dim, root);
    anchors := AnchorsOf(recent, titles);
    assert Dict(clamped.order, Clamped(accumulated.values)) == clamped;
    assert Explains(recent, titles, overlay.values, c, root, features.values, accumulated.values, clamped.order);
    ProfileCarries(recent, signals, titles, overlay.values, dim, c, root, features.values, vector);
    AnchorsPermuted(recent, signals, titles);
    AnchorsNewestFirst(recent, titles);
  }

  method MostRecentFirst(signals: seq<Signal>) returns (recent: seq<Signal>)
    ensures multiset(recent) == multiset(signals) && NewestFirst(recent)
  {
    var times := seq(|signals|, i requires 0 <= i < |signals| => signals[i].at);
    var order := ArgsortDescending(times);
    StableOrderDistinct(Negated(times), order);
    recent := seq(|order|, i requires 0 <= i < |order| => signals[order[i]]);
    ReorderedMultiset(signals, order, recent);
    forall i, j | 0 <= i < j < |recent|
      ensures recent[i].at >= recent[j].at
    {
      assert Precedes(Negated(times), order[i], order[j]);
    }
  }

  // ---- Order does not matter ----

  lemma AccumulatedCarries(a: seq<Signal>, b: seq<Signal>, titles: Catalog, overlay: map<Key, real>,
                           values: map<Key, real>)
    requires multiset(a) == multiset(b) && IsAccumulated(a, titles, overlay, values)
    ensures IsAccumulated(b, titles, overlay, values)
  {
    SameMembers(a, b);
    forall k: Key
      ensures Known(a, titles, overlay, k) <==> Known(b, titles, overlay, k)
      ensures Evidence(a, titles, overlay, k) == Evidence(b, titles, overlay, k)
    {
      SumPermuted(a, b, Share(titles, k));
    }
  }

  function Shapes(titles: Catalog, s: Signal): bool {
    s.weight > 0.0 && s.title in titles && titles[s.title].embedding.Some? && |titles[s.title].embedding.value| > 0
  }

  function Coordinate(w: Weighted, i: nat): real {
    if w.vec.Some? && i < |w.vec.value| then w.vec.value[i] * w.weight else 0.0
  }

  function Pull(titles: Catalog, i: nat): Signal -> real {
    (s: Signal) =>
      if s.weight > 0.0 && s.title in titles then Coordinate(Weighted(titles[s.title].embedding, s.weight), i) else 0.0
  }

  function Mass(titles: Catalog): Signal -> real {
    s => if Shapes(titles, s) then s.weight else 0.0
  }

  lemma UsableNext(front: seq<Weighted>, w: Weighted)
    ensures Usable(front + [w]) == Usable(front) + if w.vec.Some? && |w.vec.value| > 0 then [w] else []
  {
    assert (front + [w])[..|front|] == front;
  }

  lemma WeightedNext(front: seq<Weighted>, w: Weighted, dim: nat)
    requires forall i | 0 <= i < |front| :: front[i].vec.Some? && |front[i].vec.value| == dim
    requires w.vec.Some? && |w.vec.value| == dim
    ensures WeightedSum(front + [w], dim) == Plus(WeightedSum(front, dim), Scaled(w.vec.value, w.weight))
    ensures AbsSum(front + [w]) == AbsSum(front) + MaxReal(w.weight, -w.weight)
  {
    assert (front + [w])[..|front|] == front;
  }

  /** The entry one signal adds to the positives. */
  function Lift(titles: Catalog, s: Signal): (r: seq<Weighted>)
    ensures |r| <= 1
  {
    if s.weight > 0.0 && s.title in titles && titles[s.title].embedding.Some?
    then [Weighted(titles[s.title].embedding, s.weight)] else []
  }

  lemma PositivesNext(front: seq<Signal>, s: Signal, titles: Catalog)
    ensures Positives(front + [s], titles) == Positives(front, titles) + Lift(titles, s)
  {
    assert (front + [s])[..|front|] == front;
  }

  lemma MassNext(front: seq<Weighted>, s: Signal, titles: Catalog)
    ensures AbsSum(Usable(front + Lift(titles, s))) == AbsSum(Usable(front)) + Mass(titles)(s)
  {
    if Lift(titles, s) == [] {
      assert front + Lift(titles, s) == front;
    } else {
      var w, u := Lift(titles, s)[0], Usable(front);
      UsableNext(front, w);
      assert (u + [w])[..|u|] == u;
    }
  }

  lemma {:induction false} MassIsSum(signals: seq<Signal>, titles: Catalog)
    ensures AbsSum(Usable(Positives(signals, titles))) == SumOf(signals, Mass(titles))
  {
    if signals != [] {
      var front, s := signals[..|signals| - 1], signals[|signals| - 1];
      assert signals == front + [s];
      MassIsSum(front, titles);
      PositivesNext(front, s, titles);
      SumAppend(front, s, Mass(titles));
      MassNext(Positives(front, titles), s, titles);
    }
  }

  lemma UsableFits(vectors: seq<Weighted>, dim: nat)
    requires SameLength(vectors, dim)
    ensures forall i | 0 <= i < |Usable(vectors)| ::
              Usable(vectors)[i].vec.Some? && |Usable(vectors)[i].vec.value| == dim
  {}

  lemma DirectionNext(front: seq<Weighted>, w: Weighted, dim: nat, i: nat)
    requires SameLength(front, dim) && SameLength(front + [w], dim) && i < dim && w.vec.Some?
    ensures WeightedSum(Usable(front + [w]), dim)[i]
            == WeightedSum(Usable(front), dim)[i] + Coordinate(w, i)
  {
    UsableNext(front, w);
    UsableFits(front, dim);
    assert (front + [w])[|front|] == w;
    if |w.vec.value| > 0 {
      WeightedNext(Usable(front), w, dim);
      PlusScaledAt(WeightedSum(Usable(front), dim), w, i);
    } else {
      assert Usable(front + [w]) == Usable(front);
    }
  }

  lemma PlusScaledAt(a: Vec, w: Weighted, i: nat)
    requires w.vec.Some? && |a| == |w.vec.value| && i < |a|
    ensures Plus(a, Scaled(w.vec.value, w.weight))[i] == a[i] + Coordinate(w, i)
  {}

  /** The blended direction is a plain sum over signals, coordinate by coordinate. */
  lemma {:induction false} DirectionIsSum(signals: seq<Signal>, titles: Catalog, dim: nat, i: nat)
    requires Embedded(titles, dim) && i < dim
    ensures SameLength(Positives(signals, titles), dim)
    ensures WeightedSum(Usable(Positives(signals, titles)), dim)[i] == SumOf(signals, Pull(titles, i))
  {
    PositivesFit(signals, titles, dim);
    if signals != [] {
      var front, s := signals[..|signals| - 1], signals[|signals| - 1];
      assert signals == front + [s];
      DirectionIsSum(front, titles, dim, i);
      PositivesNext(front, s, titles);
      PullOf(titles, s, i);
      if Lift(titles, s) == [] {
        assert Positives(front, titles) + [] == Positives(front, titles);
      } else {
        DirectionNext(Positives(front, titles), Lift(titles, s)[0], dim, i);
      }
    }
  }

  lemma PullOf(titles: Catalog, s: Signal, i: nat)
    ensures Pull(titles, i)(s) == if Lift(titles, s) == [] then 0.0 else Coordinate(Lift(titles, s)[0], i)
  {}

  lemma BlendIgnoresOrder(a: seq<Signal>, b: seq<Signal>, titles: Catalog, dim: nat, root: real -> real)
    requires multiset(a) == multiset(b) && Embedded(titles, dim)
    ensures SameLength(Positives(a, titles), dim) && SameLength(Positives(b, titles), dim)
    ensures BlendVectors(Positives(a, titles), dim, root) == BlendVectors(Positives(b, titles), dim, root)
  {
    PositivesFit(a, titles, dim);
    PositivesFit(b, titles, dim);
    MassIsSum(a, titles);
    MassIsSum(b, titles);
    SumPermuted(a, b, Mass(titles));
    var ua, ub := Usable(Positives(a, titles)), Usable(Positives(b, titles));
    forall i: nat | i < dim
      ensures WeightedSum(ua, dim)[i] == WeightedSum(ub, dim)[i]
    {
      DirectionIsSum(a, titles, dim, i);
      DirectionIsSum(b, titles, dim, i);
      SumPermuted(a, b, Pull(titles, i));
    }
    assert WeightedSum(ua, dim) == WeightedSum(ub, dim);
    assert ua == [] ==> AbsSum(ua) == 0.0;
    assert ub == [] ==> AbsSum(ub) == 0.0;
  }

  lemma ProfileCarries(
    a: seq<Signal>, b: seq<Signal>, titles: Catalog, overlay: map<Key, real>, dim: nat, c: Channels, root: real -> real,
    features: map<Key, real>, vector: Option<Vec>)
    requires multiset(a) == multiset(b) && Embedded(titles, dim)
    requires IsProfile(a, titles, overlay, dim, c, root, features, vector)
    ensures IsProfile(b, titles, overlay, dim, c, root, features, vector)
  {
    BlendIgnoresOrder(a, b, titles, dim, root);
    var values, order :| Explains(a, titles, overlay, c, root, features, values, order);
    AccumulatedCarries(a, b, titles, overlay, values);
    assert Explains(b, titles, overlay, c, root, features, values, order);
  }

  lemma FeaturesUnique(
    signals: seq<Signal>, titles: Catalog, overlay: map<Key, real>, c: Channels, root: real -> real,
    fa: map<Key, real>, x: map<Key, real>, p: seq<Key>, fb: map<Key, real>, y: map<Key, real>, q: seq<Key>)
    requires Explains(signals, titles, overlay, c, root, fa, x, p)
             && Explains(signals, titles, overlay, c, root, fb, y, q)
    ensures fa == fb
  {
    forall k: Key
      ensures k in x <==> k in y
      ensures k in x ==> x[k] == y[k]
    {
      assert k in x <==> Known(signals, titles, overlay, k);
      assert k in y <==> Known(signals, titles, overlay, k);
    }
    assert x == y;
    NormalizedIgnoresOrder(c, Clamped(x), p, q, root);
  }

  /** The profile is a function of the multiset of signals: no order of signals, features or overlay can change it. */
  lemma ProfileIgnoresOrder(
    a: seq<Signal>, b: seq<Signal>, titles: Catalog, overlay: map<Key, real>, dim: nat, c: Channels, root: real -> real,
    fa: map<Key, real>, va: Option<Vec>, fb: map<Key, real>, vb: Option<Vec>)
    requires multiset(a) == multiset(b) && Embedded(titles, dim)
    requires IsProfile(a, titles, overlay, dim, c, root, fa, va) && IsProfile(b, titles, overlay, dim, c, root, fb, vb)
    ensures fa == fb && va == vb
  {
    ProfileCarries(a, b, titles, overlay, dim, c, root, fa, va);
    var x, p :| Explains(b, titles, overlay, c, root, fa, x, p);
    var y, q :| Explains(b, titles, overlay, c, root, fb, y, q);
    FeaturesUnique(b, titles, overlay, c, root, fa, x, p, fb, y, q);
  }

  // ---- What a profile guarantees ----

  lemma ClampKeepsSign(value: real)
    requires Abs(value) > FEATURE_MIN_ABS
    ensures Abs(Clamp(value)) <= FEATURE_CAP && (Clamp(value) > 0.0 <==> value > 0.0)
  {
    RoundKeepsSign(value);
  }

  /** Every stored feature has the sign of its evidence and stays within the cap, up to the rounding. */
  lemma FeaturesFollowEvidence(
    signals: seq<Signal>, titles: Catalog, overlay: map<Key, real>, dim: nat, c: Channels, root: real -> real,
    features: map<Key, real>, vector: Option<Vec>, key: Key)
    requires Embedded(titles, dim) && IsProfile(signals, titles, overlay, dim, c, root, features, vector)
    requires c.Valid() && key in features
    ensures features[key] > 0.0 <==> Evidence(signals, titles, overlay, key) > 0.0
    ensures features[key] != 0.0 && Abs(features[key]) <= FEATURE_CAP + 0.00005
  {
    var values, order :| Explains(signals, titles, overlay, c, root, features, values, order);
    SurvivorsKeepOrder(c, Dict(order, Clamped(values)), key, key, root);
    ClampKeepsSign(values[key]);
  }

  /** Every family of a stored profile is within its target, up to the rounding of the `n` features it was made from. */
  lemma ProfileFamilyBound(
    signals: seq<Signal>, titles: Catalog, overlay: map<Key, real>, dim: nat, c: Channels, root: real -> real,
    features: Dict, vector: Option<Vec>, family: Family)
    requires Embedded(titles, dim) && IsProfile(signals, titles, overlay, dim, c, root, features.values, vector)
    requires IsRoot(root) && c.Valid() && features.Valid()
    ensures exists values: map<Key, real>, order: seq<Key> ::
      && Explains(signals, titles, overlay, c, root, features.values, values, order)
      && FamilyNorm(c, features.order, features.values, family, root)
         <= c.target(family) + 0.00005 * root(|FamilyValues(c, order, Clamped(values), family)| as real)
  {
    var values, order :| Explains(signals, titles, overlay, c, root, features.values, values, order);
    StoredNormBound(c, Dict(order, Clamped(values)), features, family, root);
  }

  /** The dense vector of a profile has length one, so its similarity to any normalised title lies in [-1, 1]. */
  lemma ProfileSimilarity(
    signals: seq<Signal>, titles: Catalog, overlay: map<Key, real>, dim: nat, c: Channels, root: real -> real,
    features: map<Key, real>, vector: Option<Vec>, embedding: Option<Vec>)
    requires Embedded(titles, dim) && IsProfile(signals, titles, overlay, dim, c, root, features, vector)
    requires IsRoot(root) && IsUnit(embedding)
    ensures IsUnit(vector) && -1.0 <= Cosine(vector, embedding) <= 1.0
  {
    PositivesFit(signals, titles, dim);
    BlendIsUnit(Positives(signals, titles), dim, root);
    CosineBounded(vector, embedding);
  }
}
