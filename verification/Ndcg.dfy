/** Normalised discounted cumulative gain (metrics.py, `ndcg_at_k`) and why it lies in [0, 1]. */
module Ndcg {
  import opened Basics
  import opened Sums
  import opened Sorting

  /** One entry of the relevance mapping, in insertion order. */
  datatype Gain = Gain(id: int, gain: real)

  /** A set of relevant ids counts every member once; a mapping is taken as it is. */
  datatype Relevance = Binary(ids: seq<int>) | Graded(gains: seq<Gain>) {
    function Gains(): seq<Gain> {
      match this
      case Binary(ids) => seq(|ids|, a requires 0 <= a < |ids| => Gain(ids[a], 1.0))
      case Graded(gains) => gains
    }
  }

  /** Keys of a set or a mapping are distinct, and gains are not negative. */
  ghost predicate ValidGains(gains: seq<Gain>) {
    && (forall a, b | 0 <= a < b < |gains| :: gains[a].id != gains[b].id)
    && (forall a | 0 <= a < |gains| :: gains[a].gain >= 0.0)
  }

  /** Any positive discount that never increases with the position; the source uses 1 / log2(i + 2). */
  ghost predicate ValidDiscount(d: nat -> real) {
    forall i: nat :: d(i) > 0.0 && d(i + 1) <= d(i)
  }

  /** The gain of an id, 0 for one that is not relevant. */
  function GainOf(gains: seq<Gain>, id: int): real {
    if gains == [] then 0.0
    else if gains[|gains| - 1].id == id then gains[|gains| - 1].gain
    else GainOf(gains[..|gains| - 1], id)
  }

  function GainsAt(gains: seq<Gain>, ids: seq<int>): (r: seq<real>)
    ensures |r| == |ids| && forall a | 0 <= a < |ids| :: r[a] == GainOf(gains, ids[a])
  {
    seq(|ids|, a requires 0 <= a < |ids| => GainOf(gains, ids[a]))
  }

  function Dcg(values: seq<real>, d: nat -> real): real {
    if values == [] then 0.0
    else Dcg(values[..|values| - 1], d) + values[|values| - 1] * d(|values| - 1)
  }

  function Values(gains: seq<Gain>): (r: seq<real>)
    ensures |r| == |gains| && forall a | 0 <= a < |gains| :: r[a] == gains[a].gain
  {
    seq(|gains|, a requires 0 <= a < |gains| => gains[a].gain)
  }

  /** The relevance entries, largest gain first. */
  function Sorted(gains: seq<Gain>): (r: seq<Gain>)
    ensures |r| == |gains|
  {
    var o := ArgsortDescending(Values(gains));
    seq(|gains|, a requires 0 <= a < |gains| => gains[o[a]])
  }

  function NdcgAtK(recommended: seq<int>, relevant: Relevance, k: int, d: nat -> real): real {
    var gains := relevant.Gains();
    if k <= 0 || gains == [] then 0.0
    else
      var dcg := Dcg(Take(GainsAt(gains, recommended), k), d);
      var idcg := Dcg(Take(Values(Sorted(gains)), k), d);
      if idcg > 0.0 then dcg / idcg else 0.0
  }

  // ---- Sums over positions, reading zero past the end ----

  function At(v: seq<real>, i: nat): real {
    if i < |v| then v[i] else 0.0
  }

  ghost function Prefix(v: seq<real>, n: nat): real {
    if n == 0 then 0.0 else Prefix(v, n - 1) + At(v, n - 1)
  }

  ghost function Weighted(v: seq<real>, d: nat -> real, n: nat): real {
    if n == 0 then 0.0 else Weighted(v, d, n - 1) + At(v, n - 1) * d(n - 1)
  }

  lemma {:induction false} DcgIsWeighted(v: seq<real>, d: nat -> real, n: nat)
    ensures Dcg(Take(v, n), d) == Weighted(v, d, n)
  {
    if n > 0 {
      DcgIsWeighted(v, d, n - 1);
      if n <= |v| {
        assert Take(v, n)[..n - 1] == Take(v, n - 1);
      } else {
        assert Take(v, n) == Take(v, n - 1);
      }
    }
  }

  /** One step of the summation: a non-negative gap shrinks with the discount and then grows by the next difference. */
  lemma GapStep(slack: real, before: real, x: real, y: real, earlier: real, now: real)
    requires slack >= before * earlier && before >= 0.0 && now <= earlier
    ensures slack + (y * now - x * now) >= (before + (y - x)) * now
  {
    ScaleDown(before, now, earlier);
    ScaleSum(before, y - x, now);
    ScaleDifference(y, x, now);
  }

  lemma ScaleDown(x: real, c: real, d: real)
    requires x >= 0.0 && c <= d
    ensures x * c <= x * d
  {}

  lemma ScaleSum(x: real, y: real, c: real)
    ensures x * c + y * c == (x + y) * c
  {}

  lemma ScaleDifference(y: real, x: real, c: real)
    ensures y * c - x * c == (y - x) * c
  {}

  lemma ProductNonNegative(x: real, c: real)
    requires x >= 0.0 && c >= 0.0
    ensures x * c >= 0.0
  {}

  ghost function Gap(a: seq<real>, b: seq<real>, n: nat): real {
    Prefix(b, n) - Prefix(a, n)
  }

  ghost function Slack(a: seq<real>, b: seq<real>, d: nat -> real, n: nat): real {
    Weighted(b, d, n) - Weighted(a, d, n)
  }

  /** Every prefix sum of `b` is at least that of `a`. */
  ghost predicate Dominates(b: seq<real>, a: seq<real>, n: nat) {
    forall p: nat | p <= n :: Prefix(a, p) <= Prefix(b, p)
  }

  /** Summation by parts: the discounted sums differ by at least the discounted gap of the prefix sums. */
  lemma {:induction false} SlackAboveGap(a: seq<real>, b: seq<real>, d: nat -> real, n: nat)
    requires ValidDiscount(d) && n > 0 && Dominates(b, a, n)
    ensures Slack(a, b, d, n) >= Gap(a, b, n) * d(n - 1)
  {
    var x, y := At(a, n - 1), At(b, n - 1);
    if n == 1 {
      ScaleDifference(y, x, d(0));
      assert Weighted(a, d, 0) == 0.0 == Weighted(b, d, 0);
      assert Prefix(a, 0) == 0.0 == Prefix(b, 0);
    } else {
      assert Dominates(b, a, n - 1);
      SlackAboveGap(a, b, d, n - 1);
      assert Gap(a, b, n - 1) >= 0.0;
      assert d(n - 2) > 0.0 && d(n - 2 + 1) <= d(n - 2);
      GapStep(Slack(a, b, d, n - 1), Gap(a, b, n - 1), x, y, d(n - 2), d(n - 1));
    }
  }

  /** Dominating every prefix sum means dominating every discounted sum. */
  lemma PrefixDominance(a: seq<real>, b: seq<real>, d: nat -> real, n: nat)
    requires ValidDiscount(d) && n > 0 && Dominates(b, a, n)
    ensures Weighted(a, d, n) <= Weighted(b, d, n)
  {
    SlackAboveGap(a, b, d, n);
    assert d(n - 1) > 0.0 && Gap(a, b, n) >= 0.0;
    ProductNonNegative(Gap(a, b, n), d(n - 1));
  }

  // ---- The sum of any p entries is at most the sum of the p largest ----

  lemma {:induction false} PrefixGrows(v: seq<real>, m: nat, n: nat)
    requires forall i | 0 <= i < |v| :: v[i] >= 0.0
    requires m <= n
    ensures 0.0 <= Prefix(v, m) <= Prefix(v, n)
    decreases n
  {
    if m < n {
      PrefixGrows(v, m, n - 1);
    } else if n > 0 {
      PrefixGrows(v, n - 1, n - 1);
    }
  }

  ghost predicate Descending(v: seq<real>) {
    && (forall i | 0 <= i < |v| :: v[i] >= 0.0)
    && (forall i, j | 0 <= i < j < |v| :: v[i] >= v[j])
  }

  lemma {:induction false} TopSum(v: seq<real>, I: set<nat>, n: nat, p: nat)
    requires Descending(v) && n <= |v| && Within(I, n) && |I| <= p
    ensures Total(v, I, n) <= Prefix(v, p)
    decreases n, p
  {
    if n == 0 {
      PrefixGrows(v, 0, p);
    } else if n - 1 !in I {
      TopSum(v, I, n - 1, p);
    } else if p > n {
      IntervalSize(I, 0, n);
      TopSum(v, I, n, n);
      PrefixGrows(v, n, p);
    } else {
      var rest := I - {n - 1};
      TopSum(v, rest, n - 1, p - 1);
      TotalAdd(v, rest, n - 1, n - 1);
      assert rest + {n - 1} == I;
    }
  }

  // ---- Recommended ids against the sorted entries ----

  lemma {:induction false} GainOfEntry(gains: seq<Gain>, a: nat)
    requires ValidGains(gains) && a < |gains|
    ensures GainOf(gains, gains[a].id) == gains[a].gain
  {
    if a < |gains| - 1 {
      GainOfEntry(gains[..|gains| - 1], a);
    }
  }

  lemma {:induction false} GainOfOther(gains: seq<Gain>, id: int)
    requires forall a | 0 <= a < |gains| :: gains[a].id != id
    ensures GainOf(gains, id) == 0.0
  {
    if gains != [] {
      GainOfOther(gains[..|gains| - 1], id);
    }
  }

  /** `sorted` answers every lookup as `gains` does. */
  ghost predicate SameLookup(gains: seq<Gain>, sorted: seq<Gain>) {
    && (forall q | 0 <= q < |sorted| :: GainOf(gains, sorted[q].id) == sorted[q].gain)
    && (forall id | (forall q | 0 <= q < |sorted| :: sorted[q].id != id) :: GainOf(gains, id) == 0.0)
  }

  /** Sorting permutes the entries: distinct ids, the same lookups, descending gains. */
  lemma SortedFacts(gains: seq<Gain>)
    requires ValidGains(gains)
    ensures ValidGains(Sorted(gains)) && Descending(Values(Sorted(gains)))
    ensures SameLookup(gains, Sorted(gains))
  {
    var keys := Negated(Values(gains));
    var o := ArgsortDescending(Values(gains));
    StableOrderDistinct(keys, o);
    forall q | 0 <= q < |gains|
      ensures GainOf(gains, Sorted(gains)[q].id) == Sorted(gains)[q].gain
    {
      GainOfEntry(gains, o[q]);
    }
    forall i, j | 0 <= i < j < |gains|
      ensures Values(Sorted(gains))[i] >= Values(Sorted(gains))[j]
      ensures Sorted(gains)[i].id != Sorted(gains)[j].id
    {
      assert Precedes(keys, o[i], o[j]);
      assert o[i] != o[j];
    }
    forall id | forall q | 0 <= q < |gains| :: Sorted(gains)[q].id != id
      ensures GainOf(gains, id) == 0.0
    {
      forall a: nat | a < |gains|
        ensures gains[a].id != id
      {
        assert a in o;
        var q :| 0 <= q < |o| && o[q] == a;
        assert Sorted(gains)[q] == gains[a];
      }
      GainOfOther(gains, id);
    }
  }

  /** Among the first k recommendations only ids without gain are repeated. */
  ghost predicate RepeatsGainNothing(gains: seq<Gain>, recommended: seq<int>, k: nat) {
    forall i, j | 0 <= i < j < |recommended| && j < k && recommended[i] == recommended[j] ::
        GainOf(gains, recommended[j]) == 0.0
  }

  /** Places in the sorted order of the first p recommended ids. */
  ghost function Places(sorted: seq<Gain>, recommended: seq<int>, p: nat): set<nat>
    requires p <= |recommended|
  {
    set q: nat | q < |sorted| && sorted[q].id in recommended[..p]
  }

  lemma PlaceAdded(sorted: seq<Gain>, recommended: seq<int>, p: nat, q: nat)
    requires ValidGains(sorted) && p < |recommended| && recommended[p] !in recommended[..p]
    requires q < |sorted| && sorted[q].id == recommended[p]
    ensures q !in Places(sorted, recommended, p)
    ensures Places(sorted, recommended, p + 1) == Places(sorted, recommended, p) + {q}
  {
    assert recommended[..p + 1] == recommended[..p] + [recommended[p]];
  }

  /** One more recommendation adds its own place, if it has one, and its own gain. */
  lemma PlacesStep(gains: seq<Gain>, sorted: seq<Gain>, recommended: seq<int>, p: nat)
    requires ValidGains(sorted) && SameLookup(gains, sorted)
    requires p < |recommended| && RepeatsGainNothing(gains, recommended, p + 1)
    ensures |Places(sorted, recommended, p + 1)| <= |Places(sorted, recommended, p)| + 1
    ensures Total(Values(sorted), Places(sorted, recommended, p + 1), |sorted|)
            == Total(Values(sorted), Places(sorted, recommended, p), |sorted|) + GainOf(gains, recommended[p])
  {
    var before, after := Places(sorted, recommended, p), Places(sorted, recommended, p + 1);
    var id := recommended[p];
    assert recommended[..p + 1] == recommended[..p] + [id];
    if id in recommended[..p] {
      var i :| 0 <= i < p && recommended[..p][i] == id;
      assert recommended[i] == recommended[p];
      assert after == before;
    } else if q: nat :| q < |sorted| && sorted[q].id == id {
      PlaceAdded(sorted, recommended, p, q);
      TotalAdd(Values(sorted), before, q, |sorted|);
    } else {
      assert after == before;
    }
  }

  lemma {:induction false} RecommendedSum(gains: seq<Gain>, sorted: seq<Gain>, recommended: seq<int>, p: nat)
    requires ValidGains(sorted) && SameLookup(gains, sorted)
    requires p <= |recommended| && RepeatsGainNothing(gains, recommended, p)
    ensures |Places(sorted, recommended, p)| <= p
    ensures Prefix(GainsAt(gains, recommended), p)
            == Total(Values(sorted), Places(sorted, recommended, p), |sorted|)
  {
    if p == 0 {
      assert Places(sorted, recommended, 0) == {};
      EmptyTotal(Values(sorted), |sorted|);
    } else {
      RecommendedSum(gains, sorted, recommended, p - 1);
      PlacesStep(gains, sorted, recommended, p - 1);
    }
  }

  lemma {:induction false} EmptyTotal(w: seq<real>, n: nat)
    requires n <= |w|
    ensures Total(w, {}, n) == 0.0
  {
    if n > 0 {
      EmptyTotal(w, n - 1);
    }
  }

  lemma {:induction false} PrefixPastEnd(v: seq<real>, p: nat)
    requires p >= |v|
    ensures Prefix(v, p) == Prefix(v, |v|)
    decreases p
  {
    if p > |v| {
      PrefixPastEnd(v, p - 1);
    }
  }

  lemma PrefixBelowIdeal(gains: seq<Gain>, recommended: seq<int>, k: nat, p: nat)
    requires ValidGains(gains) && RepeatsGainNothing(gains, recommended, k) && p <= k
    ensures Prefix(GainsAt(gains, recommended), p) <= Prefix(Values(Sorted(gains)), p)
  {
    var m := Min(p, |recommended|);
    SortedFacts(gains);
    RecommendedSum(gains, Sorted(gains), recommended, m);
    TopSum(Values(Sorted(gains)), Places(Sorted(gains), recommended, m), |gains|, m);
    PrefixGrows(Values(Sorted(gains)), m, p);
    if p > m {
      PrefixPastEnd(GainsAt(gains, recommended), p);
    }
  }

  lemma {:induction false} WeightedNonNegative(v: seq<real>, d: nat -> real, n: nat)
    requires ValidDiscount(d) && forall i | 0 <= i < |v| :: v[i] >= 0.0
    ensures Weighted(v, d, n) >= 0.0
  {
    if n > 0 {
      WeightedNonNegative(v, d, n - 1);
      assert At(v, n - 1) >= 0.0 && d(n - 1) > 0.0;
      ProductNonNegative(At(v, n - 1), d(n - 1));
    }
  }

  lemma {:induction false} GainOfNonNegative(gains: seq<Gain>, id: int)
    requires forall a | 0 <= a < |gains| :: gains[a].gain >= 0.0
    ensures GainOf(gains, id) >= 0.0
  {
    if gains != [] {
      GainOfNonNegative(gains[..|gains| - 1], id);
    }
  }

  // ---- Main results ----

  /** Dominated prefix sums bound the metric, whatever the discount. */
  lemma DominatedIsBounded(recommended: seq<int>, relevant: Relevance, k: nat, d: nat -> real)
    requires ValidGains(relevant.Gains()) && ValidDiscount(d)
    requires Dominates(Values(Sorted(relevant.Gains())), GainsAt(relevant.Gains(), recommended), k)
    ensures 0.0 <= NdcgAtK(recommended, relevant, k, d) <= 1.0
  {
    var gains := relevant.Gains();
    if k > 0 && gains != [] {
      var rec, ideal := GainsAt(gains, recommended), Values(Sorted(gains));
      PrefixDominance(rec, ideal, d, k);
      forall i | 0 <= i < |rec|
        ensures rec[i] >= 0.0
      {
        GainOfNonNegative(gains, recommended[i]);
      }
      WeightedNonNegative(rec, d, k);
      DcgIsWeighted(rec, d, k);
      DcgIsWeighted(ideal, d, k);
      if Weighted(ideal, d, k) > 0.0 {
        RatioBounded(Weighted(rec, d, k), Weighted(ideal, d, k));
      }
    }
  }

  /** For non-negative gains the metric is a proportion as soon as no relevant id is repeated among the first k. */
  lemma NdcgBounded(recommended: seq<int>, relevant: Relevance, k: int, d: nat -> real)
    requires ValidGains(relevant.Gains()) && ValidDiscount(d)
    requires RepeatsGainNothing(relevant.Gains(), recommended, Max(k, 0))
    ensures 0.0 <= NdcgAtK(recommended, relevant, k, d) <= 1.0
  {
    if k > 0 {
      forall p: nat | p <= k
        ensures Prefix(GainsAt(relevant.Gains(), recommended), p) <= Prefix(Values(Sorted(relevant.Gains())), p)
      {
        PrefixBelowIdeal(relevant.Gains(), recommended, k, p);
      }
      DominatedIsBounded(recommended, relevant, k, d);
    }
  }

  // ---- The exact condition ----

  /** A large weight for the first p positions and 1 for the rest. */
  function StepDiscount(p: nat, large: real): nat -> real {
    (i: nat) => if i < p then large else 1.0
  }

  lemma {:induction false} HeadWeighted(v: seq<real>, p: nat, large: real, n: nat)
    requires n <= p
    ensures Weighted(v, StepDiscount(p, large), n) == Prefix(v, n) * large
  {
    if n > 0 {
      HeadWeighted(v, p, large, n - 1);
      ScaleSum(Prefix(v, n - 1), At(v, n - 1), large);
    }
  }

  lemma {:induction false} StepWeighted(v: seq<real>, p: nat, large: real, n: nat)
    requires p <= n
    ensures Weighted(v, StepDiscount(p, large), n) == Prefix(v, p) * large + (Prefix(v, n) - Prefix(v, p))
    decreases n
  {
    if p == n {
      HeadWeighted(v, p, large, p);
    } else {
      StepWeighted(v, p, large, n - 1);
    }
  }

  /** Large enough that the tail cannot make up for a lead. */
  lemma LargeWeight(lead: real, tail: real) returns (large: real)
    requires lead > 0.0 && tail >= 0.0
    ensures large >= 1.0 && lead * large > tail
  {
    var share := tail / lead;
    ShareOf(lead, tail, share);
    large := share + 1.0;
    ScaleSum(share, 1.0, lead);
  }

  lemma ShareOf(lead: real, tail: real, share: real)
    requires lead > 0.0 && tail >= 0.0 && share == tail / lead
    ensures share >= 0.0 && share * lead == tail
  {}

  lemma PositiveProduct(x: real, y: real)
    requires x > 0.0 && y > 0.0
    ensures x * y > 0.0
  {}

  /** A lead in some prefix sum shows under a discount that weighs the prefix heavily. */
  lemma LeadShows(a: seq<real>, b: seq<real>, p: nat, k: nat) returns (d: nat -> real)
    requires p <= k && Prefix(a, p) > Prefix(b, p)
    requires forall i | 0 <= i < |a| :: a[i] >= 0.0
    requires forall i | 0 <= i < |b| :: b[i] >= 0.0
    ensures ValidDiscount(d) && Weighted(a, d, k) > Weighted(b, d, k)
  {
    PrefixGrows(a, p, k);
    PrefixGrows(b, p, k);
    var large := LargeWeight(Prefix(a, p) - Prefix(b, p), Prefix(b, k) - Prefix(b, p));
    StepValid(p, large);
    LeadUnderStep(a, b, p, k, large);
    d := StepDiscount(p, large);
  }

  /** A sum that weighs its head heavily and its rest lightly. */
  ghost predicate Split(weighted: real, head: real, sum: real, large: real) {
    weighted == head * large + (sum - head)
  }

  /** The lead of the heads outweighs the rest of the second sum. */
  ghost predicate Outweighs(head: real, other: real, total: real, large: real) {
    (head - other) * large > total - other
  }

  lemma LeadUnderStep(a: seq<real>, b: seq<real>, p: nat, k: nat, large: real)
    requires p <= k && Prefix(a, k) >= Prefix(a, p)
    requires Outweighs(Prefix(a, p), Prefix(b, p), Prefix(b, k), large)
    ensures Weighted(a, StepDiscount(p, large), k) > Weighted(b, StepDiscount(p, large), k)
  {
    var d := StepDiscount(p, large);
    StepSplit(a, p, large, k);
    StepSplit(b, p, large, k);
    LeadCarries(Prefix(a, p), Prefix(b, p), Prefix(a, k), Prefix(b, k), large, Weighted(a, d, k), Weighted(b, d, k));
  }

  lemma StepSplit(v: seq<real>, p: nat, large: real, k: nat)
    requires p <= k
    ensures Split(Weighted(v, StepDiscount(p, large), k), Prefix(v, p), Prefix(v, k), large)
  {
    StepWeighted(v, p, large, k);
  }

  lemma LeadCarries(head: real, other: real, sum: real, total: real, large: real, weighted: real, lighter: real)
    requires Split(weighted, head, sum, large) && Split(lighter, other, total, large)
    requires Outweighs(head, other, total, large) && sum >= head
    ensures weighted > lighter
  {
    ScaleDifference(head, other, large);
  }

  lemma StepValid(p: nat, large: real)
    requires large >= 1.0
    ensures ValidDiscount(StepDiscount(p, large))
  {}

  lemma {:induction false} ZeroPrefix(v: seq<real>, p: nat)
    requires forall i | 0 <= i < |v| :: v[i] == 0.0
    ensures Prefix(v, p) == 0.0
  {
    if p > 0 {
      ZeroPrefix(v, p - 1);
    }
  }

  /** Whatever gains at all, the ideal order gains under every discount. */
  lemma IdealPositive(gains: seq<Gain>, recommended: seq<int>, p: nat, k: nat, d: nat -> real)
    requires ValidGains(gains) && ValidDiscount(d) && 0 < k
    requires Prefix(GainsAt(gains, recommended), p) > 0.0
    ensures Weighted(Values(Sorted(gains)), d, k) > 0.0
  {
    var rec, ideal := GainsAt(gains, recommended), Values(Sorted(gains));
    SortedFacts(gains);
    if forall i | 0 <= i < |rec| :: rec[i] == 0.0 {
      ZeroPrefix(rec, p);
    } else {
      var i :| 0 <= i < |rec| && rec[i] != 0.0;
      GainOfNonNegative(gains, recommended[i]);
      var q :| 0 <= q < |gains| && Sorted(gains)[q].id == recommended[i];
      assert ideal[q] == rec[i] > 0.0;
      assert ideal[0] >= ideal[q];
      FirstTerm(ideal, d, k);
    }
  }

  lemma {:induction false} FirstTerm(v: seq<real>, d: nat -> real, k: nat)
    requires ValidDiscount(d) && 0 < k && |v| > 0 && v[0] > 0.0 && forall i | 0 <= i < |v| :: v[i] >= 0.0
    ensures Weighted(v, d, k) > 0.0
  {
    assert d(k - 1) > 0.0;
    if k == 1 {
      assert Weighted(v, d, 0) == 0.0;
      PositiveProduct(v[0], d(0));
    } else {
      FirstTerm(v, d, k - 1);
      ProductNonNegative(At(v, k - 1), d(k - 1));
    }
  }

  /** The metric stays within 1 under every discount exactly when the ideal order dominates in every prefix sum. */
  lemma NdcgBoundedIff(recommended: seq<int>, relevant: Relevance, k: nat)
    requires ValidGains(relevant.Gains())
    ensures (forall d | ValidDiscount(d) :: NdcgAtK(recommended, relevant, k, d) <= 1.0)
            <==> Dominates(Values(Sorted(relevant.Gains())), GainsAt(relevant.Gains(), recommended), k)
  {
    var gains := relevant.Gains();
    var rec, ideal := GainsAt(gains, recommended), Values(Sorted(gains));
    if Dominates(ideal, rec, k) {
      forall d | ValidDiscount(d)
        ensures NdcgAtK(recommended, relevant, k, d) <= 1.0
      {
        DominatedIsBounded(recommended, relevant, k, d);
      }
    } else {
      var p: nat :| p <= k && Prefix(rec, p) > Prefix(ideal, p);
      var d := ExceedsOne(recommended, relevant, k, p);
    }
  }

  /** A prefix with more gain than the ideal one makes the metric exceed 1 under some discount. */
  lemma ExceedsOne(recommended: seq<int>, relevant: Relevance, k: nat, p: nat) returns (d: nat -> real)
    requires ValidGains(relevant.Gains()) && p <= k
    requires Prefix(GainsAt(relevant.Gains(), recommended), p) > Prefix(Values(Sorted(relevant.Gains())), p)
    ensures ValidDiscount(d) && NdcgAtK(recommended, relevant, k, d) > 1.0
  {
    var gains := relevant.Gains();
    var rec, ideal := GainsAt(gains, recommended), Values(Sorted(gains));
    SortedFacts(gains);
    forall i | 0 <= i < |rec|
      ensures rec[i] >= 0.0
    {
      GainOfNonNegative(gains, recommended[i]);
    }
    PrefixGrows(ideal, 0, p);
    d := LeadShows(rec, ideal, p, k);
    IdealPositive(gains, recommended, p, k, d);
    DcgIsWeighted(rec, d, k);
    DcgIsWeighted(ideal, d, k);
    assert gains == [] ==> ideal == [];
    RatioAboveOne(Weighted(rec, d, k), Weighted(ideal, d, k));
  }

  lemma RatioBounded(x: real, y: real)
    requires 0.0 <= x <= y && y > 0.0
    ensures 0.0 <= x / y <= 1.0
  {}

  /** The relevant ids, largest gain first. */
  function IdealOrder(gains: seq<Gain>): (r: seq<int>)
    ensures |r| == |gains|
  {
    seq(|gains|, q requires 0 <= q < |gains| => Sorted(gains)[q].id)
  }

  /** Recommending the ids in order of their gains reaches exactly 1 whenever the ideal gain is positive. */
  lemma IdealOrderReachesOne(relevant: Relevance, k: nat, d: nat -> real)
    requires ValidGains(relevant.Gains()) && k > 0
    requires Dcg(Take(Values(Sorted(relevant.Gains())), k), d) > 0.0
    ensures NdcgAtK(IdealOrder(relevant.Gains()), relevant, k, d) == 1.0
  {
    var gains := relevant.Gains();
    IdealLookups(gains);
    assert gains == [] ==> Take(Values(Sorted(gains)), k) == [];
    RatioOne(Dcg(Take(Values(Sorted(gains)), k), d));
  }

  lemma IdealLookups(gains: seq<Gain>)
    requires ValidGains(gains)
    ensures GainsAt(gains, IdealOrder(gains)) == Values(Sorted(gains))
  {
    SortedFacts(gains);
  }

  lemma RatioOne(x: real)
    requires x > 0.0
    ensures x / x == 1.0
  {}

  lemma RatioAboveOne(x: real, y: real)
    requires x > y > 0.0
    ensures x / y > 1.0
  {
    var q := x / y;
    assert q * y == x;
    if q <= 1.0 {
      ScaleDown(y, q, 1.0);
    }
  }

  /** Distinctness is needed: repeating the one relevant id scores above 1 under every discount. */
  lemma RepeatsExceedOne(d: nat -> real)
    requires ValidDiscount(d)
    ensures NdcgAtK([7, 7], Binary([7]), 2, d) > 1.0
  {
    var gains := Binary([7]).Gains();
    assert gains == [Gain(7, 1.0)];
    assert d(0) > 0.0 && d(1) > 0.0;
    assert GainsAt(gains, [7, 7]) == [1.0, 1.0];
    assert Values(Sorted(gains)) == [1.0];
    assert Dcg([1.0, 1.0], d) == d(0) + d(1) by {
      assert [1.0, 1.0][..1] == [1.0];
    }
    assert Take([1.0, 1.0], 2) == [1.0, 1.0] && Take([1.0], 2) == [1.0];
    RatioAboveOne(d(0) + d(1), d(0));
  }

}
