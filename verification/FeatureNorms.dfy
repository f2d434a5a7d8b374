/** Per-family scaling of sparse features (embeddings.py) over exact reals, with the four-decimal rounding kept. */
module FeatureNorms {
  import opened Basics
  import opened Folds
  import opened Vectors

  // ---- Rounding ----

  /** Rounding to four decimals: nearest multiple of 0.0001, ties to even. */
  function Round4(x: real): real {
    var y := x * 10000.0 + 0.5;
    var n := y.Floor;
    (if n as real == y && n % 2 != 0 then n - 1 else n) as real / 10000.0
  }

  lemma RoundClose(x: real)
    ensures -0.00005 <= Round4(x) - x <= 0.00005
  {}

  lemma RoundMonotone(x: real, y: real)
    requires x <= y
    ensures Round4(x) <= Round4(y)
  {
    var p, q := x * 10000.0 + 0.5, y * 10000.0 + 0.5;
    assert p.Floor <= q.Floor;
  }

  /** What is written to the output is not rounded away and keeps its sign. */
  lemma RoundKeepsSign(x: real)
    requires Abs(x) > 0.05
    ensures Abs(Round4(x)) >= 0.05 && (Round4(x) > 0.0 <==> x > 0.0)
  {
    if x > 0.0 {
      RoundMonotone(0.05, x);
    } else {
      RoundMonotone(x, -0.05);
    }
  }

  // ---- Families ----

  datatype Key = Key(text: string)

  datatype Family = Family(prefix: string)

  /** What is written for a value once its family is scaled: nothing when at most 0.05 is left, else four decimals. */
  function KeepRounded(value: real, scale: real): Option<real> {
    if Abs(value * scale) > 0.05 then Some(Round4(value * scale)) else None
  }

  /** How keys fall into families, how long a family may be, and what is kept of a value under a scale. */
  datatype Channels = Channels(family: Key -> Family, target: Family -> real, keep: (real, real) -> Option<real>) {
    ghost predicate Valid() {
      (forall f: Family :: target(f) >= 0.000000001) && (forall x, k :: keep(x, k) == KeepRounded(x, k))
    }
  }

  // ---- Dictionaries in insertion order ----

  datatype Dict = Dict(order: seq<Key>, values: map<Key, real>) {
    ghost predicate Valid() {
      Distinct(order) && forall k :: k in order <==> k in values
    }

    function Put(key: Key, value: real): (r: Dict)
      ensures Valid() ==> r.Valid()
      ensures r.values == values[key := value]
    {
      Dict(if key in values then order else order + [key], values[key := value])
    }
  }

  /** Values of one family along `order`; a key that has gone counts as zero. */
  function FamilyValues(c: Channels, order: seq<Key>, values: map<Key, real>, family: Family): Vec {
    if order == [] then []
    else
      var last := order[|order| - 1];
      var front := FamilyValues(c, order[..|order| - 1], values, family);
      if c.family(last) != family then front else front + [if last in values then values[last] else 0.0]
  }

  function Scale(l2: real, target: real): real {
    if l2 < 0.000000001 || l2 <= target then 1.0 else target / l2
  }

  /** Length of one family. */
  function FamilyNorm(c: Channels, order: seq<Key>, values: map<Key, real>, family: Family, root: real -> real): real {
    var v := FamilyValues(c, order, values, family);
    root(Dot(v, v))
  }

  /** The factor every value of a family is multiplied by. */
  function ScaleOf(c: Channels, d: Dict, root: real -> real): Family -> real {
    (family: Family) => Scale(FamilyNorm(c, d.order, d.values, family, root), c.target(family))
  }

  function Kept(c: Channels, values: map<Key, real>, scale: Family -> real): map<Key, real> {
    map k | k in values && c.keep(values[k], scale(c.family(k))).Some? :: c.keep(values[k], scale(c.family(k))).value
  }

  function Normalized(c: Channels, d: Dict, root: real -> real): map<Key, real> {
    Kept(c, d.values, ScaleOf(c, d, root))
  }

  // ---- The bucket loops ----

  type Items = seq<(Key, real)>

  function ItemsOf(c: Channels, order: seq<Key>, values: map<Key, real>, family: Family): (items: Items)
    requires forall k | k in order :: k in values
    ensures forall i | 0 <= i < |items| :: items[i].0 in order && c.family(items[i].0) == family
                                           && items[i].1 == values[items[i].0]
  {
    if order == [] then []
    else
      var last := order[|order| - 1];
      var front := ItemsOf(c, order[..|order| - 1], values, family);
      if c.family(last) == family then front + [(last, values[last])] else front
  }

  lemma {:induction false} ItemPresent(c: Channels, order: seq<Key>, values: map<Key, real>, key: Key) returns (j: nat)
    requires (forall k | k in order :: k in values) && key in order
    ensures j < |ItemsOf(c, order, values, c.family(key))|
    ensures ItemsOf(c, order, values, c.family(key))[j] == (key, values[key])
  {
    var last := order[|order| - 1];
    if last == key {
      j := |ItemsOf(c, order, values, c.family(key))| - 1;
    } else {
      j := ItemPresent(c, order[..|order| - 1], values, key);
    }
  }

  function ValuesOf(items: Items): (v: Vec)
    ensures |v| == |items|
  {
    seq(|items|, i requires 0 <= i < |items| => items[i].1)
  }

  lemma {:induction false} ItemsAreFamily(c: Channels, order: seq<Key>, values: map<Key, real>, family: Family)
    requires forall k | k in order :: k in values
    ensures ValuesOf(ItemsOf(c, order, values, family)) == FamilyValues(c, order, values, family)
  {
    if order != [] {
      ItemsAreFamily(c, order[..|order| - 1], values, family);
    }
  }

  /** Collects the buckets, then writes each family's survivors: exactly `Normalized`. */
  method NormalizeFeatureFamilies(c: Channels, d: Dict, root: real -> real) returns (out: Dict)
    requires d.Valid()
    ensures out.Valid() && out.values == Normalized(c, d, root)
  {
    var families, buckets := FillBuckets(c, d);
    out := Dict([], map[]);
    ghost var scale := ScaleOf(c, d, root);
    ghost var done: set<Family> := {};
    for n := 0 to |families|
      invariant Written(c, d.values, scale, done, out)
      invariant forall j | 0 <= j < n :: families[j] in done
    {
      BucketIsFamily(c, d, families, buckets, n);
      out := WriteFamily(c, d, out, families[n], buckets[families[n]], root, scale, done);
      done := done + {families[n]};
    }
    AllWritten(c, d, families, buckets, scale, done, out);
  }

  lemma BucketIsFamily(c: Channels, d: Dict, families: seq<Family>, buckets: map<Family, Items>, n: nat)
    requires d.Valid() && Filled(c, d.order, d.values, families, buckets) && n < |families|
    ensures families[n] in buckets && buckets[families[n]] == ItemsOf(c, d.order, d.values, families[n])
  {
    assert families[n] in families;
    assert BucketOf(buckets, families[n]) == ItemsOf(c, d.order, d.values, families[n]);
  }

  lemma AllWritten(c: Channels, d: Dict, families: seq<Family>, buckets: map<Family, Items>, scale: Family -> real,
                   done: set<Family>, out: Dict)
    requires d.Valid() && Filled(c, d.order, d.values, families, buckets)
    requires Written(c, d.values, scale, done, out) && forall j | 0 <= j < |families| :: families[j] in done
    ensures out.values == Kept(c, d.values, scale)
  {
    forall k | k in d.values
      ensures c.family(k) in done
    {
      assert k in d.order && c.family(k) in families;
    }
  }

  function BucketOf(buckets: map<Family, Items>, family: Family): Items {
    if family in buckets then buckets[family] else []
  }

  /** The buckets after the features in `order`. */
  ghost predicate Filled(
    c: Channels, order: seq<Key>, values: map<Key, real>, families: seq<Family>, buckets: map<Family, Items>)
  {
    && (forall k | k in order :: k in values && c.family(k) in families)
    && (forall f: Family :: f in families <==> f in buckets)
    && (forall f: Family :: BucketOf(buckets, f) == ItemsOf(c, order, values, f))
  }

  lemma FilledNext(
    c: Channels, order: seq<Key>, values: map<Key, real>, families: seq<Family>, buckets: map<Family, Items>,
    key: Key, families': seq<Family>, buckets': map<Family, Items>)
    requires Filled(c, order, values, families, buckets) && key in values
    requires families' == if c.family(key) in buckets then families else families + [c.family(key)]
    requires buckets' == buckets[c.family(key) := BucketOf(buckets, c.family(key)) + [(key, values[key])]]
    ensures Filled(c, order + [key], values, families', buckets')
  {
    assert (order + [key])[..|order|] == order;
    forall f: Family
      ensures BucketOf(buckets', f) == ItemsOf(c, order + [key], values, f)
    {
      assert BucketOf(buckets, f) == ItemsOf(c, order, values, f);
    }
  }

  lemma Rebound(buckets: map<Family, Items>, family: Family, before: Items, after: Items)
    ensures buckets[family := before][family := after] == buckets[family := after]
  {}

  method FillBuckets(c: Channels, d: Dict) returns (families: seq<Family>, buckets: map<Family, Items>)
    requires d.Valid()
    ensures Filled(c, d.order, d.values, families, buckets)
  {
    families, buckets := [], map[];
    for i := 0 to |d.order|
      invariant Filled(c, d.order[..i], d.values, families, buckets)
    {
      var key := d.order[i];
      var fam := c.family(key);
      ghost var families0, buckets0 := families, buckets;
      if fam !in buckets {
        families := families + [fam];
        buckets := buckets[fam := []];
      }
      Rebound(buckets0, fam, [], [(key, d.values[key])]);
      buckets := buckets[fam := buckets[fam] + [(key, d.values[key])]];
      FilledNext(c, d.order[..i], d.values, families0, buckets0, key, families, buckets);
      assert d.order[..i + 1] == d.order[..i] + [key];
    }
    assert d.order[..|d.order|] == d.order;
  }

  /** Everything in `out` is a survivor of a family in `done`. */
  ghost predicate Sound(c: Channels, values: map<Key, real>, scale: Family -> real, done: set<Family>, out: Dict) {
    && out.Valid()
    && (forall k | k in out.values ::
          k in values && c.family(k) in done && c.keep(values[k], scale(c.family(k))) == Some(out.values[k]))
  }

  lemma PutSound(
    c: Channels, values: map<Key, real>, scale: Family -> real, done: set<Family>, out: Dict, key: Key, value: real)
    requires Sound(c, values, scale, done, out)
    requires key in values && c.family(key) in done && c.keep(values[key], scale(c.family(key))) == Some(value)
    ensures Sound(c, values, scale, done, out.Put(key, value))
  {}

  /** `out` holds the survivors of the families in `done` and nothing else. */
  ghost predicate Written(c: Channels, values: map<Key, real>, scale: Family -> real, done: set<Family>, out: Dict) {
    && Sound(c, values, scale, done, out)
    && (forall k | k in values && c.family(k) in done && c.keep(values[k], scale(c.family(k))).Some? :: k in out.values)
  }

  /** One bucket: its length, its scale, its survivors. */
  method WriteFamily(
    c: Channels, d: Dict, start: Dict, fam: Family, items: Items, root: real -> real,
    ghost scale: Family -> real, ghost done: set<Family>)
    returns (out: Dict)
    requires d.Valid() && items == ItemsOf(c, d.order, d.values, fam)
    requires scale(fam) == ScaleOf(c, d, root)(fam)
    requires Written(c, d.values, scale, done, start)
    ensures Written(c, d.values, scale, done + {fam}, out)
  {
    var factor := FactorFor(items, c.target(fam), root);
    ItemsAreFamily(c, d.order, d.values, fam);
    assert factor == scale(fam);
    out := PutSurvivors(c, d, start, fam, items, factor, scale, done);
  }

  method FactorFor(items: Items, target: real, root: real -> real) returns (factor: real)
    ensures factor == Scale(root(Dot(ValuesOf(items), ValuesOf(items))), target)
  {
    var squares := 0.0;
    ghost var v := ValuesOf(items);
    for i := 0 to |items|
      invariant squares == Dot(v[..i], v[..i])
    {
      assert v[..i + 1][..i] == v[..i];
      squares := squares + items[i].1 * items[i].1;
    }
    assert v[..|items|] == v;
    factor := Scale(root(squares), target);
  }

  method PutSurvivors(
    c: Channels, d: Dict, start: Dict, fam: Family, items: Items, factor: real,
    ghost scale: Family -> real, ghost done: set<Family>)
    returns (out: Dict)
    requires d.Valid() && items == ItemsOf(c, d.order, d.values, fam) && factor == scale(fam)
    requires Written(c, d.values, scale, done, start)
    ensures Written(c, d.values, scale, done + {fam}, out)
  {
    out := start;
    for i := 0 to |items|
      invariant Sound(c, d.values, scale, done + {fam}, out)
      invariant forall k | k in start.values :: k in out.values
      invariant forall j | 0 <= j < i && c.keep(items[j].1, factor).Some? :: items[j].0 in out.values
    {
      var scaled := c.keep(items[i].1, factor);
      if scaled.Some? {
        PutSound(c, d.values, scale, done + {fam}, out, items[i].0, scaled.value);
        out := out.Put(items[i].0, scaled.value);
      }
    }
    forall k | k in d.values && c.family(k) == fam && c.keep(d.values[k], factor).Some?
      ensures k in out.values
    {
      var j := ItemPresent(c, d.order, d.values, k);
    }
  }

  // ---- What normalisation guarantees ----

  function OrZero(o: Option<real>): real {
    if o.Some? then o.value else 0.0
  }

  /** The result of a family: the kept value of every input value. */
  function KeptVector(c: Channels, v: Vec, k: real): (r: Vec)
    ensures |r| == |v| && forall i | 0 <= i < |v| :: r[i] == OrZero(c.keep(v[i], k))
  {
    seq(|v|, i requires 0 <= i < |v| => OrZero(c.keep(v[i], k)))
  }

  lemma {:induction false} ResultIsKeptVector(
    c: Channels, order: seq<Key>, values: map<Key, real>, scale: Family -> real, family: Family)
    requires forall k | k in order :: k in values
    ensures FamilyValues(c, order, Kept(c, values, scale), family)
            == KeptVector(c, FamilyValues(c, order, values, family), scale(family))
  {
    if order != [] {
      var last := order[|order| - 1];
      ResultIsKeptVector(c, order[..|order| - 1], values, scale, family);
      var v := FamilyValues(c, order, values, family);
      if c.family(last) == family {
        assert KeptVector(c, v, scale(family))[..|v| - 1] == KeptVector(c, v[..|v| - 1], scale(family));
      }
    }
  }

  /** Each coordinate has gone, or differs from the scaled one by at most half a unit of the last decimal. */
  ghost predicate Rounding(r: Vec, scaled: Vec) {
    && |r| == |scaled|
    && forall i | 0 <= i < |r| :: r[i] == 0.0 || -0.00005 <= r[i] - scaled[i] <= 0.00005
  }

  lemma KeptIsRounding(c: Channels, v: Vec, k: real)
    requires c.Valid()
    ensures Rounding(KeptVector(c, v, k), Scaled(v, k))
  {
    forall i | 0 <= i < |v|
      ensures KeptVector(c, v, k)[i] == 0.0 || -0.00005 <= KeptVector(c, v, k)[i] - Scaled(v, k)[i] <= 0.00005
    {
      RoundClose(v[i] * k);
    }
  }

  lemma SquareMonotone(x: real, y: real)
    requires 0.0 <= x <= y
    ensures x * x <= y * y
  {
    MulMonotone(x, y, x);
    MulMonotone(x, y, y);
  }

  lemma {:induction false} SmallCoordinates(e: Vec, bound: real)
    requires forall i | 0 <= i < |e| :: e[i] * e[i] <= bound
    ensures Dot(e, e) <= |e| as real * bound
  {
    if e != [] {
      var front := e[..|e| - 1];
      SmallCoordinates(front, bound);
      Distribute(|front| as real, 1.0, bound);
    }
  }

  /** Scaling brings a vector of length `l2` within its target. */
  lemma ScaledWithinTarget(v: Vec, l2: real, target: real, k: real)
    requires l2 >= 0.0 && l2 * l2 == Dot(v, v) && target >= 0.000000001 && k == Scale(l2, target)
    ensures Dot(Scaled(v, k), Scaled(v, k)) <= target * target
  {
    ScaledSquare(v, k);
    ShrunkSquare(l2, target, Dot(v, v));
  }

  lemma ShrunkSquare(l2: real, target: real, square: real)
    requires l2 >= 0.0 && l2 * l2 == square && target >= 0.000000001
    ensures Scale(l2, target) * Scale(l2, target) * square <= target * target
  {
    if l2 <= target {
      SquareMonotone(l2, target);
    } else {
      QuotientTimes(target, l2);
      SquareOfProduct(target / l2, l2);
    }
  }

  lemma QuotientTimes(x: real, y: real)
    requires y > 0.0
    ensures x / y * y == x
  {}

  lemma SquareOfProduct(k: real, x: real)
    ensures k * k * (x * x) == (k * x) * (k * x)
  {}

  lemma SquareOfSmall(x: real, u: real)
    requires -u <= x <= u
    ensures x * x <= u * u
  {
    SquareMonotone(Abs(x), u);
  }

  /** Dropping and rounding lengthens a vector by at most 0.00005 for the root of its size. */
  lemma RoundingBound(r: Vec, scaled: Vec, target: real, rn: real, rs: real)
    requires Rounding(r, scaled) && target >= 0.0 && Dot(scaled, scaled) <= target * target
    requires rn >= 0.0 && rn * rn == |r| as real && rs * rs == Dot(r, r)
    ensures rs <= target + 0.00005 * rn
  {
    var s, e := SplitRounding(r, scaled);
    DotMonotone(s, scaled);
    SmallCoordinates(e, 0.00005 * 0.00005);
    RegroupError(0.00005, rn);
    Minkowski(s, e, target, 0.00005 * rn, rs);
  }

  /** The rounded vector is the scaled one with some coordinates dropped, plus a small error. */
  lemma SplitRounding(r: Vec, scaled: Vec) returns (s: Vec, e: Vec)
    requires Rounding(r, scaled)
    ensures |s| == |e| == |r| && Plus(s, e) == r
    ensures forall i | 0 <= i < |r| :: s[i] * s[i] <= scaled[i] * scaled[i]
    ensures forall i | 0 <= i < |r| :: e[i] * e[i] <= 0.00005 * 0.00005
  {
    s := seq(|r|, i requires 0 <= i < |r| => if r[i] == 0.0 then 0.0 else scaled[i]);
    e := seq(|r|, i requires 0 <= i < |r| => if r[i] == 0.0 then 0.0 else r[i] - scaled[i]);
    forall i | 0 <= i < |r|
      ensures e[i] * e[i] <= 0.00005 * 0.00005
    {
      SquareOfSmall(e[i], 0.00005);
    }
    forall i | 0 <= i < |r|
      ensures s[i] * s[i] <= scaled[i] * scaled[i]
    {
      SquareMonotone(0.0, Abs(scaled[i]));
    }
  }

  lemma RegroupError(u: real, r: real)
    ensures (u * r) * (u * r) == (r * r) * (u * u)
  {}

  /** Before rounding no family is longer than its target. */
  lemma ExactFamilyBound(c: Channels, d: Dict, family: Family, root: real -> real)
    requires IsRoot(root) && c.Valid()
    ensures var s := Scaled(FamilyValues(c, d.order, d.values, family), ScaleOf(c, d, root)(family));
            Dot(s, s) <= c.target(family) * c.target(family)
  {
    ScaledByRoot(FamilyValues(c, d.order, d.values, family), c.target(family), root, ScaleOf(c, d, root)(family));
  }

  lemma ScaledByRoot(v: Vec, target: real, root: real -> real, k: real)
    requires IsRoot(root) && target >= 0.000000001 && k == Scale(root(Dot(v, v)), target)
    ensures Dot(Scaled(v, k), Scaled(v, k)) <= target * target
  {
    var l2 := LengthOf(root, v);
    ScaledWithinTarget(v, l2, target, k);
  }

  lemma ResultNorm(c: Channels, d: Dict, family: Family, scale: Family -> real, rn: real, rs: real)
    requires c.Valid() && d.Valid()
    requires var s := Scaled(FamilyValues(c, d.order, d.values, family), scale(family));
             Dot(s, s) <= c.target(family) * c.target(family)
    requires rn >= 0.0 && rn * rn == |FamilyValues(c, d.order, d.values, family)| as real
    requires var r := FamilyValues(c, d.order, Kept(c, d.values, scale), family); rs * rs == Dot(r, r)
    ensures rs <= c.target(family) + 0.00005 * rn
  {
    var v := FamilyValues(c, d.order, d.values, family);
    ResultIsKeptVector(c, d.order, d.values, scale, family);
    KeptIsRounding(c, v, scale(family));
    RoundingBound(KeptVector(c, v, scale(family)), Scaled(v, scale(family)), c.target(family), rn, rs);
  }

  /** No family of the result is longer than its target plus 0.00005 for the root of its number of features. */
  lemma FamilyNormBound(c: Channels, d: Dict, family: Family, root: real -> real)
    requires IsRoot(root) && c.Valid() && d.Valid()
    ensures FamilyNorm(c, d.order, Normalized(c, d, root), family, root)
            <= c.target(family) + 0.00005 * root(|FamilyValues(c, d.order, d.values, family)| as real)
  {
    var rn, rs := ResultNorms(c, d, family, root);
    ExactFamilyBound(c, d, family, root);
    ResultNorm(c, d, family, ScaleOf(c, d, root), rn, rs);
  }

  lemma ResultNorms(c: Channels, d: Dict, family: Family, root: real -> real) returns (rn: real, rs: real)
    requires IsRoot(root)
    ensures rn == root(|FamilyValues(c, d.order, d.values, family)| as real)
    ensures rn >= 0.0 && rn * rn == |FamilyValues(c, d.order, d.values, family)| as real
    ensures rs == FamilyNorm(c, d.order, Normalized(c, d, root), family, root)
    ensures var r := FamilyValues(c, d.order, Normalized(c, d, root), family); rs * rs == Dot(r, r)
  {
    rn := RootOf(root, |FamilyValues(c, d.order, d.values, family)| as real);
    rs := LengthOf(root, FamilyValues(c, d.order, Normalized(c, d, root), family));
  }

  lemma RootOf(root: real -> real, x: real) returns (r: real)
    requires IsRoot(root) && x >= 0.0
    ensures r == root(x) && r >= 0.0 && r * r == x
  {
    r := root(x);
  }

  lemma LengthOf(root: real -> real, v: Vec) returns (r: real)
    requires IsRoot(root)
    ensures r == root(Dot(v, v)) && r >= 0.0 && r * r == Dot(v, v)
  {
    DotNonNegative(v);
    r := root(Dot(v, v));
  }

  lemma ScaleIsPositive(l2: real, target: real)
    requires target > 0.0
    ensures 0.0 < Scale(l2, target) <= 1.0
  {
    if l2 > target {
      QuotientTimes(target, l2);
      var q := target / l2;
      assert q > 0.0;
      if q > 1.0 {
        MulMonotone(1.0, q, l2);
      }
    }
  }

  lemma ShrinkKeepsSign(x: real, k: real)
    requires 0.0 < k <= 1.0
    ensures (x * k > 0.0 <==> x > 0.0) && Abs(x * k) <= Abs(x)
  {
    if x >= 0.0 {
      MulMonotone(k, 1.0, x);
    } else {
      MulMonotone(k, 1.0, -x);
    }
  }

  lemma ScaleMonotone(x: real, y: real, k: real)
    requires 0.0 < k && x <= y
    ensures Round4(x * k) <= Round4(y * k)
  {
    var p, q := x * k, y * k;
    assert p <= q;
    RoundMonotone(p, q);
  }

  lemma KeptInOrder(x: real, y: real, k: real)
    requires 0.0 < k <= 1.0 && Abs(x * k) > 0.05
    ensures x <= y ==> Round4(x * k) <= Round4(y * k)
    ensures (Round4(x * k) > 0.0 <==> x > 0.0) && Round4(x * k) != 0.0
    ensures Abs(Round4(x * k)) <= Abs(x) + 0.00005
  {
    RoundKeepsSign(x * k);
    RoundClose(x * k);
    ShrinkKeepsSign(x, k);
    if x <= y {
      ScaleMonotone(x, y, k);
    }
  }

  lemma KeepOrdered(c: Channels, x: real, y: real, k: real)
    requires c.Valid() && 0.0 < k <= 1.0 && c.keep(x, k).Some? && c.keep(y, k).Some?
    ensures x <= y ==> c.keep(x, k).value <= c.keep(y, k).value
    ensures c.keep(x, k).value != 0.0 && (c.keep(x, k).value > 0.0 <==> x > 0.0)
    ensures Abs(c.keep(x, k).value) <= Abs(x) + 0.00005
  {
    KeptInOrder(x, y, k);
  }

  /** Within a family survivors keep their sign and their order, and none grows by more than the rounding. */
  lemma SurvivorsKeepOrder(c: Channels, d: Dict, a: Key, b: Key, root: real -> real)
    requires c.Valid() && c.family(a) == c.family(b)
    requires a in Normalized(c, d, root) && b in Normalized(c, d, root)
    ensures var r := Normalized(c, d, root);
            && (d.values[a] <= d.values[b] ==> r[a] <= r[b])
            && r[a] != 0.0 && (r[a] > 0.0 <==> d.values[a] > 0.0)
            && Abs(r[a]) <= Abs(d.values[a]) + 0.00005
  {
    var family := c.family(a);
    ScaleIsPositive(FamilyNorm(c, d.order, d.values, family, root), c.target(family));
    KeepOrdered(c, d.values[a], d.values[b], ScaleOf(c, d, root)(family));
  }

  /** A family within its target is only rounded. */
  lemma SmallFamilyOnlyRounded(c: Channels, d: Dict, key: Key, root: real -> real)
    requires c.Valid() && key in d.values
             && FamilyNorm(c, d.order, d.values, c.family(key), root) <= c.target(c.family(key))
    ensures key in Normalized(c, d, root) <==> Abs(d.values[key]) > 0.05
    ensures key in Normalized(c, d, root) ==> Normalized(c, d, root)[key] == Round4(d.values[key])
  {
    assert ScaleOf(c, d, root)(c.family(key)) == 1.0;
    assert c.keep(d.values[key], 1.0) == KeepRounded(d.values[key], 1.0);
    assert d.values[key] * 1.0 == d.values[key];
  }

  // ---- Order of the features ----

  function SquareIn(c: Channels, values: map<Key, real>, family: Family): Key -> real {
    k => if c.family(k) == family && k in values then values[k] * values[k] else 0.0
  }

  lemma {:induction false} NormIsSum(c: Channels, order: seq<Key>, values: map<Key, real>, family: Family)
    ensures var v := FamilyValues(c, order, values, family); Dot(v, v) == SumOf(order, SquareIn(c, values, family))
  {
    if order != [] {
      NormIsSum(c, order[..|order| - 1], values, family);
    }
  }

  lemma KeptPointwise(c: Channels, values: map<Key, real>, f: Family -> real, g: Family -> real)
    requires forall family: Family :: f(family) == g(family)
    ensures Kept(c, values, f) == Kept(c, values, g)
  {}

  lemma NormIgnoresOrder(c: Channels, values: map<Key, real>, p: seq<Key>, q: seq<Key>, root: real -> real,
                         family: Family)
    requires multiset(p) == multiset(q)
    ensures FamilyNorm(c, p, values, family, root) == FamilyNorm(c, q, values, family, root)
  {
    NormIsSum(c, p, values, family);
    NormIsSum(c, q, values, family);
    SumPermuted(p, q, SquareIn(c, values, family));
  }

  lemma ScaleIgnoresOrder(c: Channels, values: map<Key, real>, p: seq<Key>, q: seq<Key>, root: real -> real,
                          family: Family)
    requires multiset(p) == multiset(q)
    ensures ScaleOf(c, Dict(p, values), root)(family) == ScaleOf(c, Dict(q, values), root)(family)
  {
    NormIgnoresOrder(c, values, p, q, root, family);
  }

  /** Normalisation does not depend on the order features were met in. */
  lemma NormalizedIgnoresOrder(c: Channels, values: map<Key, real>, p: seq<Key>, q: seq<Key>, root: real -> real)
    requires Dict(p, values).Valid() && Dict(q, values).Valid()
    ensures Normalized(c, Dict(p, values), root) == Normalized(c, Dict(q, values), root)
  {
    DistinctCounts(p);
    DistinctCounts(q);
    assert Elems(p) == Elems(q);
    var f, g := ScaleOf(c, Dict(p, values), root), ScaleOf(c, Dict(q, values), root);
    forall family: Family
      ensures f(family) == g(family)
    {
      ScaleIgnoresOrder(c, values, p, q, root, family);
    }
    KeptPointwise(c, values, f, g);
  }

  /** The bound, measured on the result alone in whatever order it is stored. */
  lemma StoredNormBound(c: Channels, d: Dict, stored: Dict, family: Family, root: real -> real)
    requires IsRoot(root) && c.Valid() && d.Valid() && stored.Valid() && stored.values == Normalized(c, d, root)
    ensures FamilyNorm(c, stored.order, stored.values, family, root)
            <= c.target(family) + 0.00005 * root(|FamilyValues(c, d.order, d.values, family)| as real)
  {
    NormIsSum(c, stored.order, stored.values, family);
    NormIsSum(c, d.order, stored.values, family);
    SumDropsZeros(d.order, stored.order, SquareIn(c, stored.values, family));
    FamilyNormBound(c, d, family, root);
  }

  // ---- The families of the catalog ----

  const PREFIXES := [
    "person:director:", "person:writer:", "person:cast:", "tone:", "kw:", "country:", "lang:", "genre:", "decade:",
    "runtime:", "media:"
  ]

  function LongestPrefix(key: string, prefixes: seq<string>): (best: string)
    ensures best == "" || (best in prefixes && best <= key)
    ensures forall i | 0 <= i < |prefixes| && prefixes[i] <= key :: |prefixes[i]| <= |best|
  {
    if prefixes == [] then ""
    else
      var last := prefixes[|prefixes| - 1];
      var best := LongestPrefix(key, prefixes[..|prefixes| - 1]);
      if last <= key && |last| > |best| then last else best
  }

  /** The loop over the table; its order does not matter. */
  method FeatureFamily(key: string, prefixes: seq<string>) returns (family: string)
    ensures family == FamilyIn(key, prefixes)
  {
    var best := "";
    for i := 0 to |prefixes|
      invariant best == LongestPrefix(key, prefixes[..i])
    {
      assert prefixes[..i + 1][..i] == prefixes[..i];
      if prefixes[i] <= key && |prefixes[i]| > |best| {
        best := prefixes[i];
      }
    }
    assert prefixes[..|prefixes|] == prefixes;
    family := if best == "" then "other:" else best;
  }

  function FamilyIn(key: string, prefixes: seq<string>): string {
    var best := LongestPrefix(key, prefixes);
    if best == "" then "other:" else best
  }

  /** The longest matching prefix is unique, so a table in any order gives the same family. */
  lemma FamilyIgnoresTableOrder(key: string, p: seq<string>, q: seq<string>)
    requires forall x :: x in p <==> x in q
    ensures FamilyIn(key, p) == FamilyIn(key, q)
  {
    var x, y := LongestPrefix(key, p), LongestPrefix(key, q);
    assert |x| == |y|;
    assert x == key[..|x|] && y == key[..|y|];
  }

  function TargetOf(f: Family): real {
    var family := f.prefix;
    if family == "person:director:" || family == "kw:" then 2.5
    else if family == "person:writer:" then 1.8
    else if family == "person:cast:" || family == "genre:" then 2.8
    else if family == "country:" || family == "lang:" || family == "decade:" then 1.5
    else if family == "runtime:" || family == "media:" then 1.0
    else 2.0
  }

  /** The tables of the catalog satisfy what the bounds assume. */
  function CatalogChannels(): (c: Channels)
    ensures c.Valid()
  {
    Channels((k: Key) => Family(FamilyIn(k.text, PREFIXES)), TargetOf, KeepRounded)
  }
}
