/** What one signal changes in a taste profile (profile.py, `build_profile_from_signals`), read off the snapshot of its
    title. */
module EvidenceLaws {
  import opened Basics
  import opened Folds
  import opened Vectors
  import opened TasteSignals
  import opened FeatureNorms
  import opened Profile

  /** The snapshot holds the number `value` under the key, as a dictionary does, once. */
  ghost predicate Lists(entries: seq<Entry>, key: Key, value: real) {
    exists i | 0 <= i < |entries| ::
      && entries[i] == Entry(key, Some(value))
      && forall j | 0 <= j < |entries| && j != i :: entries[j].key != key
  }

  /** The snapshot holds no number under the key. */
  ghost predicate Silent(entries: seq<Entry>, key: Key) {
    forall i | 0 <= i < |entries| && entries[i].key == key :: entries[i].value.None?
  }

  predicate Internal(key: Key) {
    "__" <= key.text
  }

  ghost predicate Times(product: real, x: real, y: real) {
    product == x * y
  }

  ghost function ValueAt(values: map<Key, real>, key: Key): real {
    if key in values then values[key] else 0.0
  }

  // ---- One snapshot ----

  lemma {:induction false} SilentAddsNothing(entries: seq<Entry>, weight: real, key: Key)
    requires Internal(key) || Silent(entries, key)
    ensures Contribution(entries, weight, key) == 0.0
  {
    if entries != [] {
      SilentAddsNothing(entries[..|entries| - 1], weight, key);
    }
  }

  lemma SilentIsUnmentioned(entries: seq<Entry>, key: Key)
    requires Internal(key) || Silent(entries, key)
    ensures !Mentions(entries, key)
  {}

  lemma {:induction false} OneEntryAdds(entries: seq<Entry>, weight: real, i: nat)
    requires i < |entries| && entries[i].value.Some? && !Internal(entries[i].key)
    requires forall j | 0 <= j < |entries| && j != i :: entries[j].key != entries[i].key
    ensures Times(Contribution(entries, weight, entries[i].key), entries[i].value.value, weight)
  {
    var front := entries[..|entries| - 1];
    if i == |front| {
      SilentAddsNothing(front, weight, entries[i].key);
    } else {
      OneEntryAdds(front, weight, i);
    }
  }

  lemma ListedAdds(entries: seq<Entry>, weight: real, key: Key, value: real)
    requires Lists(entries, key, value) && !Internal(key)
    ensures Times(Contribution(entries, weight, key), value, weight) && Mentions(entries, key)
  {
    var i :| 0 <= i < |entries| && entries[i] == Entry(key, Some(value))
             && forall j | 0 <= j < |entries| && j != i :: entries[j].key != key;
    OneEntryAdds(entries, weight, i);
  }

  // ---- One more signal ----

  lemma {:induction false} UnknownIsZero(signals: seq<Signal>, titles: Catalog, key: Key)
    requires forall s | s in signals :: !Mentions(Snapshot(titles, s), key)
    ensures SumOf(signals, Share(titles, key)) == 0.0
  {
    if signals != [] {
      var front, s := signals[..|signals| - 1], signals[|signals| - 1];
      UnknownIsZero(front, titles, key);
      SilentAddsNothing(Snapshot(titles, s), s.weight, key) by {
        assert !Mentions(Snapshot(titles, s), key);
      }
    }
  }

  lemma AccumulatedAt(signals: seq<Signal>, titles: Catalog, overlay: map<Key, real>, values: map<Key, real>, key: Key)
    requires IsAccumulated(signals, titles, overlay, values)
    ensures ValueAt(values, key) == Evidence(signals, titles, overlay, key)
  {
    if key !in values {
      UnknownIsZero(signals, titles, key);
    }
  }

  lemma SignalAdds(signals: seq<Signal>, s: Signal, titles: Catalog, overlay: map<Key, real>,
                   before: map<Key, real>, after: map<Key, real>, key: Key)
    requires IsAccumulated(signals, titles, overlay, before) && IsAccumulated(signals + [s], titles, overlay, after)
    ensures key in after <==> key in before || Mentions(Snapshot(titles, s), key)
    ensures ValueAt(after, key) == ValueAt(before, key) + Contribution(Snapshot(titles, s), s.weight, key)
  {
    AccumulatedAt(signals, titles, overlay, before, key);
    AccumulatedAt(signals + [s], titles, overlay, after, key);
    SumAppend(signals, s, Share(titles, key));
    assert forall x :: x in signals + [s] <==> x in signals || x == s;
    assert key in before <==> Known(signals, titles, overlay, key);
    assert key in after <==> Known(signals + [s], titles, overlay, key);
  }

  ghost predicate Moved(now: real, before: real, value: real, weight: real) {
    now == before + value * weight
  }

  lemma ListedMoves(signals: seq<Signal>, s: Signal, titles: Catalog, overlay: map<Key, real>,
                    before: map<Key, real>, after: map<Key, real>, key: Key, value: real)
    requires IsAccumulated(signals, titles, overlay, before) && IsAccumulated(signals + [s], titles, overlay, after)
    requires s.title in titles && Lists(titles[s.title].snapshot, key, value) && !Internal(key)
    ensures key in after && Moved(after[key], ValueAt(before, key), value, s.weight)
  {
    SignalAdds(signals, s, titles, overlay, before, after, key);
    ListedAdds(titles[s.title].snapshot, s.weight, key, value);
    MoveBy(ValueAt(after, key), ValueAt(before, key), Contribution(Snapshot(titles, s), s.weight, key), value,
           s.weight);
  }

  lemma MoveBy(now: real, before: real, step: real, value: real, weight: real)
    requires now == before + step && Times(step, value, weight)
    ensures Moved(now, before, value, weight)
  {}

  /** A signal on a catalog title moves every feature its snapshot lists by the listed number times the weight of the
      signal, up for a positive weight and down for a negative one. */
  lemma ListedFeatureMoves(signals: seq<Signal>, s: Signal, titles: Catalog, overlay: map<Key, real>,
                           before: map<Key, real>, after: map<Key, real>, key: Key, value: real)
    requires IsAccumulated(signals, titles, overlay, before) && IsAccumulated(signals + [s], titles, overlay, after)
    requires s.title in titles && Lists(titles[s.title].snapshot, key, value) && !Internal(key)
    ensures key in after && after[key] == ValueAt(before, key) + value * s.weight
  {
    ListedMoves(signals, s, titles, overlay, before, after, key, value);
  }

  /** Internal keys, keys the snapshot does not list, and keys listed without a number are left alone. */
  lemma OtherFeaturesStay(signals: seq<Signal>, s: Signal, titles: Catalog, overlay: map<Key, real>,
                          before: map<Key, real>, after: map<Key, real>, key: Key)
    requires IsAccumulated(signals, titles, overlay, before) && IsAccumulated(signals + [s], titles, overlay, after)
    requires s.title in titles ==> Internal(key) || Silent(titles[s.title].snapshot, key)
    ensures key in after <==> key in before
    ensures key in after ==> after[key] == before[key]
  {
    SignalAdds(signals, s, titles, overlay, before, after, key);
    SilentIsUnmentioned(Snapshot(titles, s), key);
    SilentAddsNothing(Snapshot(titles, s), s.weight, key);
  }

  /** A signal on a title the catalog does not hold changes nothing at all. */
  lemma UnknownTitleChangesNothing(signals: seq<Signal>, s: Signal, titles: Catalog, overlay: map<Key, real>,
                                   before: map<Key, real>, after: map<Key, real>)
    requires IsAccumulated(signals, titles, overlay, before) && IsAccumulated(signals + [s], titles, overlay, after)
    requires s.title !in titles
    ensures after == before
  {
    forall key: Key
      ensures key in after <==> key in before
      ensures key in after ==> after[key] == before[key]
    {
      OtherFeaturesStay(signals, s, titles, overlay, before, after, key);
    }
  }

  /** Without signals the imported values are all there is; with signals they are added on top. */
  lemma OverlayAdds(signals: seq<Signal>, titles: Catalog, overlay: map<Key, real>,
                    before: map<Key, real>, after: map<Key, real>, key: Key)
    requires IsAccumulated(signals, titles, map[], before) && IsAccumulated(signals, titles, overlay, after)
    ensures key in after <==> key in before || key in overlay
    ensures key in after ==> after[key] == ValueAt(before, key) + ValueAt(overlay, key)
    ensures signals == [] ==> before == map[]
  {
    AccumulatedAt(signals, titles, map[], before, key);
    AccumulatedAt(signals, titles, overlay, after, key);
    assert key in before <==> Known(signals, titles, map[], key);
    assert key in after <==> Known(signals, titles, overlay, key);
    if signals == [] {
      assert forall k: Key :: k in before <==> Known(signals, titles, map[], k);
      assert before == map[];
    }
  }

  /** A signal and its exact opposite on the same title leave every listed value where it was. */
  lemma OppositesCancel(signals: seq<Signal>, s: Signal, t: Signal, titles: Catalog, overlay: map<Key, real>,
                        before: map<Key, real>, between: map<Key, real>, after: map<Key, real>, key: Key, value: real)
    requires s.title == t.title && s.title in titles && t.weight == -s.weight
    requires Lists(titles[s.title].snapshot, key, value) && !Internal(key)
    requires IsAccumulated(signals, titles, overlay, before)
    requires IsAccumulated(signals + [s], titles, overlay, between)
    requires IsAccumulated(signals + [s] + [t], titles, overlay, after)
    ensures key in after && after[key] == ValueAt(before, key)
  {
    ListedMoves(signals, s, titles, overlay, before, between, key, value);
    ListedMoves(signals + [s], t, titles, overlay, between, after, key, value);
    MovedBack(ValueAt(before, key), between[key], after[key], value, s.weight, t.weight);
  }

  lemma MovedBack(before: real, between: real, after: real, value: real, weight: real, opposite: real)
    requires Moved(between, before, value, weight) && Moved(after, between, value, opposite) && opposite == -weight
    ensures after == before
  {}

  // ---- Clamping ----

  /** A value within the cap is kept up to the rounding; one beyond it becomes the cap, with its sign. */
  lemma ClampClose(value: real)
    ensures Abs(value) <= 4.5 ==> Abs(Clamp(value) - value) <= 0.00005
    ensures value >= 4.5 ==> Clamp(value) == 4.5
    ensures value <= -4.5 ==> Clamp(value) == -4.5
  {
    RoundClose(value);
    CapIsRound();
    if value >= 4.5 {
      RoundMonotone(4.5, value);
    } else if value <= -4.5 {
      RoundMonotone(value, -4.5);
    } else {
      RoundMonotone(value, 4.5);
      RoundMonotone(-4.5, value);
    }
  }

  lemma CapIsRound()
    ensures Round4(4.5) == 4.5 && Round4(-4.5) == -4.5
  {}

  /** The clamped features are those beyond 0.05 either way. */
  lemma ClampedAt(values: map<Key, real>, key: Key)
    ensures key in Clamped(values) <==> key in values && (values[key] > 0.05 || values[key] < -0.05)
    ensures key in Clamped(values) ==> Clamped(values)[key] == Clamp(values[key])
  {}

  // ---- A single dislike ----

  /** One negative signal makes every feature its title lists with a positive number negative, through the clamp. */
  lemma DislikeSubtracts(s: Signal, titles: Catalog, values: map<Key, real>, key: Key, value: real)
    requires IsAccumulated([s], titles, map[], values)
    requires s.title in titles && Lists(titles[s.title].snapshot, key, value) && !Internal(key)
    requires s.weight < 0.0 && value > 0.0 && value * s.weight < -0.05
    ensures key in values && values[key] == value * s.weight < 0.0
    ensures key in Clamped(values) && Clamped(values)[key] < 0.0
  {
    assert [] + [s] == [s];
    ListedFeatureMoves([], s, titles, map[], map[], values, key, value);
    ClampedAt(values, key);
    ClampKeepsSign(values[key]);
  }

  /** A stored profile of one dislike has no feature in favour of what the title lists. */
  lemma DislikedProfile(s: Signal, titles: Catalog, dim: nat, c: Channels, root: real -> real,
                        features: map<Key, real>, vector: Option<Vec>, key: Key, value: real)
    requires Embedded(titles, dim) && IsProfile([s], titles, map[], dim, c, root, features, vector) && c.Valid()
    requires s.title in titles && Lists(titles[s.title].snapshot, key, value) && !Internal(key)
    requires s.weight < 0.0 && value > 0.0 && key in features
    ensures features[key] < 0.0
  {
    FeaturesFollowEvidence([s], titles, map[], dim, c, root, features, vector, key);
    var values, order :| Explains([s], titles, map[], c, root, features, values, order);
    OneDislike(s, titles, values, key, value);
  }

  lemma OneDislike(s: Signal, titles: Catalog, values: map<Key, real>, key: Key, value: real)
    requires IsAccumulated([s], titles, map[], values)
    requires s.title in titles && Lists(titles[s.title].snapshot, key, value) && !Internal(key)
    requires s.weight < 0.0 && value > 0.0
    ensures key in values && values[key] == Evidence([s], titles, map[], key) < 0.0
  {
    assert [] + [s] == [s];
    ListedMoves([], s, titles, map[], map[], values, key, value);
    MovedDown(values[key], value, s.weight);
  }

  lemma MovedDown(now: real, value: real, weight: real)
    requires Moved(now, 0.0, value, weight) && value > 0.0 && weight < 0.0
    ensures now < 0.0
  {
    NegativeProduct(value, weight);
  }

  lemma NegativeProduct(x: real, y: real)
    requires x > 0.0 && y < 0.0
    ensures x * y < 0.0
  {}

  // ---- The dense vector ----

  /** Only positive signals on catalog titles with an embedding turn the vector. */
  lemma VectorIgnores(signals: seq<Signal>, s: Signal, titles: Catalog, dim: nat, root: real -> real)
    requires Embedded(titles, dim)
    requires s.weight <= 0.0 || s.title !in titles || titles[s.title].embedding.None?
    ensures SameLength(Positives(signals, titles), dim) && SameLength(Positives(signals + [s], titles), dim)
    ensures BlendVectors(Positives(signals + [s], titles), dim, root)
            == BlendVectors(Positives(signals, titles), dim, root)
  {
    PositivesFit(signals, titles, dim);
    PositivesNext(signals, s, titles);
    assert Positives(signals, titles) + [] == Positives(signals, titles);
  }

  /** What a usable embedding adds: the blend of n signals, times its length, is the sum of weight times embedding. */
  ghost predicate LongBy(vectors: seq<Weighted>, dim: nat, root: real -> real, length: real) {
    && SameLength(vectors, dim)
    && BlendVectors(vectors, dim, root).Some?
    && length > 0.0
    && (forall i | 0 <= i < |Usable(vectors)| :: Usable(vectors)[i].vec.Some? && |Usable(vectors)[i].vec.value| == dim)
    && forall i | 0 <= i < dim ::
         Times(WeightedSum(Usable(vectors), dim)[i], BlendVectors(vectors, dim, root).value[i], length)
  }

  lemma Lengthened(vectors: seq<Weighted>, dim: nat, root: real -> real) returns (length: real)
    requires SameLength(vectors, dim) && BlendVectors(vectors, dim, root).Some?
    ensures LongBy(vectors, dim, root, length)
  {
    UsableFits(vectors, dim);
    var acc := WeightedSum(Usable(vectors), dim);
    length := root(Dot(acc, acc));
    forall i | 0 <= i < dim
      ensures Times(acc[i], BlendVectors(vectors, dim, root).value[i], length)
    {
      DividedBack(acc[i], length);
    }
  }

  lemma DividedBack(x: real, length: real)
    requires length > 0.0
    ensures Times(x, x * (1.0 / length), length)
  {}

  /** `after` at its length is `before` at its length plus the weighted step. */
  ghost predicate Turned(after: real, longer: real, before: real, length: real, step: real, weight: real) {
    after * longer == before * length + step * weight
  }

  lemma TurnedBy(after: real, longer: real, before: real, length: real, step: real, weight: real,
                 sum: real, front: real, pull: real)
    requires Times(sum, after, longer) && Times(front, before, length) && Times(pull, step, weight)
    requires sum == front + pull
    ensures Turned(after, longer, before, length, step, weight)
  {}

  lemma PullIsTimes(w: Weighted, i: nat)
    requires w.vec.Some? && i < |w.vec.value|
    ensures Times(Coordinate(w, i), w.vec.value[i], w.weight)
  {}

  /** A positive signal turns the vector towards the embedding of its title: up to the lengths, the new vector is the
      old one plus the weight times the embedding. */
  lemma VectorTurns(signals: seq<Signal>, s: Signal, titles: Catalog, dim: nat, root: real -> real)
    returns (length: real, longer: real)
    requires Embedded(titles, dim) && s.weight > 0.0 && s.title in titles && titles[s.title].embedding.Some?
    requires |titles[s.title].embedding.value| == dim > 0
    requires SameLength(Positives(signals, titles), dim) && SameLength(Positives(signals + [s], titles), dim)
    requires var v := BlendVectors(Positives(signals, titles), dim, root); v.Some?
    requires var w := BlendVectors(Positives(signals + [s], titles), dim, root); w.Some?
    ensures length > 0.0 && longer > 0.0
    ensures var v := BlendVectors(Positives(signals, titles), dim, root).value;
            var w := BlendVectors(Positives(signals + [s], titles), dim, root).value;
            forall i | 0 <= i < dim ::
              Turned(w[i], longer, v[i], length, titles[s.title].embedding.value[i], s.weight)
  {
    var front, lift := Positives(signals, titles), Weighted(titles[s.title].embedding, s.weight);
    var whole := Positives(signals + [s], titles);
    length := Lengthened(front, dim, root);
    longer := Lengthened(whole, dim, root);
    PositivesNext(signals, s, titles);
    forall i | 0 <= i < dim
      ensures Turned(BlendVectors(whole, dim, root).value[i], longer, BlendVectors(front, dim, root).value[i], length,
                     lift.vec.value[i], lift.weight)
    {
      TurnedAt(front, lift, dim, root, length, longer, i);
    }
  }

  lemma TurnedAt(front: seq<Weighted>, lift: Weighted, dim: nat, root: real -> real, length: real, longer: real, i: nat)
    requires LongBy(front, dim, root, length) && LongBy(front + [lift], dim, root, longer) && i < dim
    requires lift.vec.Some? && |lift.vec.value| == dim
    ensures Turned(BlendVectors(front + [lift], dim, root).value[i], longer, BlendVectors(front, dim, root).value[i],
                   length, lift.vec.value[i], lift.weight)
  {
    DirectionNext(front, lift, dim, i);
    PullIsTimes(lift, i);
    TurnedBy(BlendVectors(front + [lift], dim, root).value[i], longer, BlendVectors(front, dim, root).value[i], length,
             lift.vec.value[i], lift.weight, WeightedSum(Usable(front + [lift]), dim)[i],
             WeightedSum(Usable(front), dim)[i], Coordinate(lift, i));
  }

  /** One liked title with a normalised embedding makes that embedding the profile vector. */
  lemma LikedTitleIsVector(s: Signal, titles: Catalog, dim: nat, root: real -> real)
    requires IsRoot(root) && Embedded(titles, dim) && s.title in titles && s.weight >= 0.000000000001
    requires var e := titles[s.title].embedding; e.Some? && |e.value| == dim > 0 && IsUnit(e)
    ensures SameLength(Positives([s], titles), dim)
    ensures BlendVectors(Positives([s], titles), dim, root) == titles[s.title].embedding
  {
    PositivesFit([s], titles, dim);
    var e, lift := titles[s.title].embedding.value, Weighted(titles[s.title].embedding, s.weight);
    assert [] + [s] == [s];
    PositivesNext([], s, titles);
    assert Positives([s], titles) == [lift];
    OneBlended(lift, dim);
    ScaledSquare(e, s.weight);
    OneLength(root, s.weight, Dot(Scaled(e, s.weight), Scaled(e, s.weight)));
    ScaledBack(e, s.weight);
  }

  lemma OneBlended(w: Weighted, dim: nat)
    requires w.vec.Some? && |w.vec.value| == dim > 0
    ensures Usable([w]) == [w] && WeightedSum([w], dim) == Scaled(w.vec.value, w.weight)
    ensures AbsSum([w]) == MaxReal(w.weight, -w.weight)
  {
    UsableNext([], w);
    assert [] + [w] == [w];
    WeightedNext([], w, dim);
    var zero := WeightedSum([], dim);
    assert forall i | 0 <= i < dim :: Plus(zero, Scaled(w.vec.value, w.weight))[i] == Scaled(w.vec.value, w.weight)[i];
  }

  lemma OneLength(root: real -> real, weight: real, square: real)
    requires IsRoot(root) && weight > 0.0 && square == weight * weight * 1.0
    ensures root(square) == weight
  {
    assert square >= 0.0;
    RootMonotone(root(square), weight);
    RootMonotone(weight, root(square));
  }

  lemma ScaledBack(v: Vec, weight: real)
    requires weight > 0.0
    ensures Scaled(Scaled(v, weight), 1.0 / weight) == v
  {
    forall i | 0 <= i < |v|
      ensures Scaled(Scaled(v, weight), 1.0 / weight)[i] == v[i]
    {
      assert Times(Scaled(v, weight)[i], v[i], weight);
      assert Times(Scaled(Scaled(v, weight), 1.0 / weight)[i], Scaled(v, weight)[i], 1.0 / weight);
      TimesInverse(v[i], weight, Scaled(v, weight)[i], Scaled(Scaled(v, weight), 1.0 / weight)[i], 1.0 / weight);
    }
  }

  lemma TimesInverse(x: real, weight: real, once: real, twice: real, inverse: real)
    requires weight > 0.0 && inverse == 1.0 / weight && Times(once, x, weight) && Times(twice, once, inverse)
    ensures twice == x
  {
    assert weight * inverse == 1.0;
    assert twice == x * (weight * inverse);
  }

  // ---- Anchors ----

  /** The anchors of an explanation are the catalog titles liked, watched and liked, or rated 3 or 4, with a raw weight
      of at least 0.85, each signal as often as it occurs. */
  lemma AnchorsMeaning(signals: seq<Signal>, titles: Catalog, s: Signal)
    ensures multiset(AnchorsOf(signals, titles))[s]
            == if s.title in titles && s.rawWeight >= 0.85
                  && (s.kind == Like || s.kind == WatchedLiked || s.kind == Rate3 || s.kind == Rate4)
               then multiset(signals)[s] else 0
  {
    AnchorCount(signals, titles, s);
  }
}
