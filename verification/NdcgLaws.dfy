/** What the metric rewards: where a relevant id stands, and every exchange that moves gain towards the top
    (metrics.py, `ndcg_at_k`). */
module NdcgLaws {
  import opened Basics
  import opened Sorting
  import opened Ndcg

  ghost predicate Product(p: real, x: real, y: real) {
    p == x * y
  }

  ghost function IdealGain(relevant: Relevance, k: nat, d: nat -> real): real {
    Weighted(Values(Sorted(relevant.Gains())), d, k)
  }

  /** The metric is the discounted gain in units of the ideal one. */
  lemma NdcgTimesIdeal(recommended: seq<int>, relevant: Relevance, k: nat, d: nat -> real)
    requires k > 0 && relevant.Gains() != [] && IdealGain(relevant, k, d) > 0.0
    ensures Product(Weighted(GainsAt(relevant.Gains(), recommended), d, k),
                    NdcgAtK(recommended, relevant, k, d), IdealGain(relevant, k, d))
  {
    DcgIsWeighted(GainsAt(relevant.Gains(), recommended), d, k);
    DcgIsWeighted(Values(Sorted(relevant.Gains())), d, k);
    QuotientProduct(Weighted(GainsAt(relevant.Gains(), recommended), d, k), IdealGain(relevant, k, d));
  }

  lemma QuotientProduct(x: real, y: real)
    requires y > 0.0
    ensures Product(x, x / y, y)
  {}

  lemma CompareProducts(p: real, q: real, x: real, y: real, unit: real)
    requires Product(p, x, unit) && Product(q, y, unit) && unit > 0.0
    ensures p < q <==> x < y
    ensures p == q <==> x == y
  {
    if x < y {
      assert (y - x) * unit > 0.0;
    } else if y < x {
      assert (x - y) * unit > 0.0;
    }
  }

  /** Under one relevance, more discounted gain is a higher score. */
  lemma MoreGainScoresHigher(a: seq<int>, b: seq<int>, relevant: Relevance, k: nat, d: nat -> real)
    requires k > 0 && relevant.Gains() != [] && IdealGain(relevant, k, d) > 0.0
    ensures Weighted(GainsAt(relevant.Gains(), a), d, k) < Weighted(GainsAt(relevant.Gains(), b), d, k)
            <==> NdcgAtK(a, relevant, k, d) < NdcgAtK(b, relevant, k, d)
    ensures Weighted(GainsAt(relevant.Gains(), a), d, k) == Weighted(GainsAt(relevant.Gains(), b), d, k)
            <==> NdcgAtK(a, relevant, k, d) == NdcgAtK(b, relevant, k, d)
  {
    NdcgTimesIdeal(a, relevant, k, d);
    NdcgTimesIdeal(b, relevant, k, d);
    CompareProducts(Weighted(GainsAt(relevant.Gains(), a), d, k), Weighted(GainsAt(relevant.Gains(), b), d, k),
                    NdcgAtK(a, relevant, k, d), NdcgAtK(b, relevant, k, d), IdealGain(relevant, k, d));
  }

  // ---- One relevant id ----

  lemma {:induction false} OneTerm(v: seq<real>, p: nat, g: real, d: nat -> real, n: nat)
    requires forall i | 0 <= i < n :: At(v, i) == if i == p then g else 0.0
    ensures Weighted(v, d, n) == if p < n then g * d(p) else 0.0
  {
    if n > 0 {
      OneTerm(v, p, g, d, n - 1);
    }
  }

  lemma SingleSorted(x: Gain)
    ensures Sorted([x]) == [x]
  {
    var o := ArgsortDescending(Values([x]));
    assert o[0] == 0;
  }

  lemma SingleIdeal(relevant: Relevance, x: Gain, k: nat, d: nat -> real)
    requires relevant.Gains() == [x] && k > 0
    ensures Product(IdealGain(relevant, k, d), x.gain, d(0))
  {
    SingleSorted(x);
    OneTerm(Values([x]), 0, x.gain, d, k);
  }

  lemma OneGain(x: Gain, id: int)
    ensures GainOf([x], id) == if id == x.id then x.gain else 0.0
  {
    assert [x][..0] == [];
    assert GainOf([], id) == 0.0;
  }

  /** With one relevant id, met only at place p, every other term of the sum is zero. */
  lemma OneHit(recommended: seq<int>, x: Gain, p: nat, k: nat, d: nat -> real)
    requires p < |recommended| && p < k
    requires forall i | 0 <= i < |recommended| && i < k :: recommended[i] == x.id <==> i == p
    ensures Product(Weighted(GainsAt([x], recommended), d, k), x.gain, d(p))
  {
    var v := GainsAt([x], recommended);
    forall i: nat | i < k
      ensures At(v, i) == if i == p then x.gain else 0.0
    {
      if i < |recommended| {
        OneGain(x, recommended[i]);
      }
    }
    OneTerm(v, p, x.gain, d, k);
  }

  lemma NoHit(recommended: seq<int>, x: Gain, k: nat, d: nat -> real)
    requires forall i | 0 <= i < |recommended| && i < k :: recommended[i] != x.id
    ensures Weighted(GainsAt([x], recommended), d, k) == 0.0
  {
    var v := GainsAt([x], recommended);
    forall i: nat | i < k
      ensures At(v, i) == 0.0
    {
      if i < |recommended| {
        OneGain(x, recommended[i]);
      }
    }
    OneTerm(v, k, 0.0, d, k);
  }

  lemma SharedFactor(p: real, q: real, x: real, g: real, y: real, z: real)
    requires g > 0.0 && z > 0.0 && Product(p, g, y) && Product(q, g, z) && Product(p, x, q)
    ensures x == y / z
  {
    assert g * (x * z) == g * y;
    assert x * z == y;
  }

  lemma PositiveIdeal(q: real, g: real, z: real)
    requires Product(q, g, z) && g > 0.0 && z > 0.0
    ensures q > 0.0
  {}

  /** A single relevant id, met at place p among the first k and nowhere else there, scores the discount of its place
      relative to the first place; any positive gain gives the same score. */
  lemma SingleRelevantScores(recommended: seq<int>, relevant: Relevance, x: Gain, p: nat, k: nat, d: nat -> real)
    requires ValidDiscount(d) && relevant.Gains() == [x] && x.gain > 0.0 && p < k && p < |recommended|
    requires forall i | 0 <= i < |recommended| && i < k :: recommended[i] == x.id <==> i == p
    ensures NdcgAtK(recommended, relevant, k, d) == d(p) / d(0)
  {
    SingleIdeal(relevant, x, k, d);
    OneHit(recommended, x, p, k, d);
    assert d(0) > 0.0;
    PositiveIdeal(IdealGain(relevant, k, d), x.gain, d(0));
    NdcgTimesIdeal(recommended, relevant, k, d);
    SharedFactor(Weighted(GainsAt([x], recommended), d, k), IdealGain(relevant, k, d),
                 NdcgAtK(recommended, relevant, k, d), x.gain, d(p), d(0));
  }

  /** A single relevant id that is not among the first k scores nothing. */
  lemma SingleAbsentScoresZero(recommended: seq<int>, relevant: Relevance, x: Gain, k: nat, d: nat -> real)
    requires relevant.Gains() == [x]
    requires forall i | 0 <= i < |recommended| && i < k :: recommended[i] != x.id
    ensures NdcgAtK(recommended, relevant, k, d) == 0.0
  {
    if k > 0 {
      DcgIsWeighted(GainsAt([x], recommended), d, k);
      NoHit(recommended, x, k, d);
    }
  }

  /** The second place of two is worth the second discount. */
  lemma SecondPlace(d: nat -> real)
    requires ValidDiscount(d)
    ensures NdcgAtK([2, 1], Binary([1]), 2, d) == d(1) / d(0)
  {
    assert Binary([1]).Gains() == [Gain(1, 1.0)];
    SingleRelevantScores([2, 1], Binary([1]), Gain(1, 1.0), 1, 2, d);
  }

  // ---- Exchanges ----

  lemma {:induction false} WeightedUpdate(v: seq<real>, i: nat, x: real, d: nat -> real, n: nat)
    requires i < |v|
    ensures i < n ==> Product(Weighted(v[i := x], d, n) - Weighted(v, d, n), x - v[i], d(i))
    ensures i >= n ==> Weighted(v[i := x], d, n) == Weighted(v, d, n)
  {
    if n > 0 {
      WeightedUpdate(v, i, x, d, n - 1);
      if i == n - 1 {
        TermChange(Weighted(v, d, n - 1), x, v[i], d(i));
      } else {
        assert At(v[i := x], n - 1) == At(v, n - 1);
        SameTerm(v, v[i := x], d, n);
      }
    }
  }

  lemma TermChange(rest: real, x: real, y: real, c: real)
    ensures Product(rest + x * c - (rest + y * c), x - y, c)
  {}

  /** A term both sums share does not change their difference. */
  lemma SameTerm(v: seq<real>, w: seq<real>, d: nat -> real, n: nat)
    requires n > 0 && At(v, n - 1) == At(w, n - 1)
    ensures Weighted(w, d, n) - Weighted(v, d, n) == Weighted(w, d, n - 1) - Weighted(v, d, n - 1)
  {}

  function Swap<T>(s: seq<T>, i: nat, j: nat): (r: seq<T>)
    requires i < j < |s|
    ensures |r| == |s| && r[i] == s[j] && r[j] == s[i]
    ensures forall a | 0 <= a < |s| && a != i && a != j :: r[a] == s[a]
  {
    s[i := s[j]][j := s[i]]
  }

  lemma WeightedSwap(v: seq<real>, i: nat, j: nat, d: nat -> real, n: nat)
    requires i < j < |v| && j < n
    ensures Product(Weighted(Swap(v, i, j), d, n) - Weighted(v, d, n), v[j] - v[i], d(i) - d(j))
  {
    WeightedUpdate(v, i, v[j], d, n);
    WeightedUpdate(v[i := v[j]], j, v[i], d, n);
    Regrouped(Weighted(v[i := v[j]], d, n) - Weighted(v, d, n),
              Weighted(Swap(v, i, j), d, n) - Weighted(v[i := v[j]], d, n), v[j] - v[i], v[i] - v[j], d(i), d(j));
  }

  lemma Regrouped(p: real, q: real, x: real, y: real, a: real, b: real)
    requires Product(p, x, a) && Product(q, y, b) && y == -x
    ensures Product(p + q, x, a - b)
  {}

  lemma {:induction false} LaterDiscount(d: nat -> real, i: nat, j: nat)
    requires ValidDiscount(d) && i <= j
    ensures d(j) <= d(i)
    decreases j
  {
    if i < j {
      LaterDiscount(d, i, j - 1);
    }
  }

  lemma SignOfProduct(p: real, x: real, y: real)
    requires Product(p, x, y) && x > 0.0 && y >= 0.0
    ensures p >= 0.0 && (p > 0.0 <==> y > 0.0)
  {
    if y > 0.0 {
      PositiveProduct(x, y);
    } else {
      assert y == 0.0;
    }
  }

  /** Moving the larger of two gains within the first k to the earlier place never lowers the score, and raises it
      exactly when the discount tells the two places apart. */
  lemma ExchangeRaises(recommended: seq<int>, relevant: Relevance, i: nat, j: nat, k: nat, d: nat -> real)
    requires ValidGains(relevant.Gains()) && ValidDiscount(d) && i < j < |recommended| && j < k
    requires GainOf(relevant.Gains(), recommended[i]) < GainOf(relevant.Gains(), recommended[j])
    ensures NdcgAtK(recommended, relevant, k, d) <= NdcgAtK(Swap(recommended, i, j), relevant, k, d)
    ensures NdcgAtK(recommended, relevant, k, d) < NdcgAtK(Swap(recommended, i, j), relevant, k, d) <==> d(j) < d(i)
  {
    var gains := relevant.Gains();
    var v := GainsAt(gains, recommended);
    assert GainsAt(gains, Swap(recommended, i, j)) == Swap(v, i, j);
    WeightedSwap(v, i, j, d, k);
    LaterDiscount(d, i, j);
    SignOfProduct(Weighted(Swap(v, i, j), d, k) - Weighted(v, d, k), v[j] - v[i], d(i) - d(j));
    GainMakesIdeal(recommended, relevant, i, j, k, d);
    MoreGainScoresHigher(recommended, Swap(recommended, i, j), relevant, k, d);
  }

  lemma GainMakesIdeal(recommended: seq<int>, relevant: Relevance, i: nat, j: nat, k: nat, d: nat -> real)
    requires ValidGains(relevant.Gains()) && ValidDiscount(d) && i < |recommended| && j < |recommended| && j < k
    requires GainOf(relevant.Gains(), recommended[i]) < GainOf(relevant.Gains(), recommended[j])
    ensures relevant.Gains() != [] && IdealGain(relevant, k, d) > 0.0
  {
    var gains := relevant.Gains();
    var v := GainsAt(gains, recommended);
    GainOfNonNegative(gains, recommended[i]);
    forall a | 0 <= a < |v|
      ensures v[a] >= 0.0
    {
      GainOfNonNegative(gains, recommended[a]);
    }
    PositivePrefix(v, j, k);
    IdealPositive(gains, recommended, k, k, d);
  }

  lemma {:induction false} PositivePrefix(v: seq<real>, j: nat, n: nat)
    requires j < |v| && j < n && v[j] > 0.0 && forall a | 0 <= a < |v| :: v[a] >= 0.0
    ensures Prefix(v, n) > 0.0
    decreases n
  {
    if j < n - 1 {
      PositivePrefix(v, j, n - 1);
    } else {
      NonNegativePrefix(v, j);
    }
  }

  lemma {:induction false} NonNegativePrefix(v: seq<real>, n: nat)
    requires forall a | 0 <= a < |v| :: v[a] >= 0.0
    ensures Prefix(v, n) >= 0.0
  {
    if n > 0 {
      NonNegativePrefix(v, n - 1);
    }
  }

  /** Replacing an entry within the first k by one of larger gain raises the score. */
  lemma BetterEntryRaises(recommended: seq<int>, relevant: Relevance, i: nat, id: int, k: nat, d: nat -> real)
    requires ValidGains(relevant.Gains()) && ValidDiscount(d) && i < |recommended| && i < k
    requires GainOf(relevant.Gains(), recommended[i]) < GainOf(relevant.Gains(), id)
    ensures NdcgAtK(recommended, relevant, k, d) < NdcgAtK(recommended[i := id], relevant, k, d)
  {
    var gains := relevant.Gains();
    var v, better := GainsAt(gains, recommended), recommended[i := id];
    assert GainsAt(gains, better) == v[i := GainOf(gains, id)];
    LargerEntryWeighsMore(v, i, GainOf(gains, id), d, k);
    GainMakesIdealAt(better, relevant, i, recommended[i], k, d);
    MoreGainScoresHigher(recommended, better, relevant, k, d);
  }

  lemma LargerEntryWeighsMore(v: seq<real>, i: nat, x: real, d: nat -> real, n: nat)
    requires ValidDiscount(d) && i < |v| && i < n && v[i] < x
    ensures Weighted(v, d, n) < Weighted(v[i := x], d, n)
  {
    WeightedUpdate(v, i, x, d, n);
    assert d(i) > 0.0;
    SignOfProduct(Weighted(v[i := x], d, n) - Weighted(v, d, n), x - v[i], d(i));
  }

  lemma GainMakesIdealAt(better: seq<int>, relevant: Relevance, i: nat, old': int, k: nat, d: nat -> real)
    requires ValidGains(relevant.Gains()) && ValidDiscount(d) && i < |better| && i < k
    requires GainOf(relevant.Gains(), old') < GainOf(relevant.Gains(), better[i])
    ensures relevant.Gains() != [] && IdealGain(relevant, k, d) > 0.0
  {
    GainMakesIdeal([old'] + better, relevant, 0, i + 1, k + 1, d);
    IdealKeepsSign(relevant, k, d);
  }

  lemma IdealKeepsSign(relevant: Relevance, k: nat, d: nat -> real)
    requires k > 0 && ValidGains(relevant.Gains()) && ValidDiscount(d) && IdealGain(relevant, k + 1, d) > 0.0
    ensures IdealGain(relevant, k, d) > 0.0
  {
    var ideal := Values(Sorted(relevant.Gains()));
    SortedFacts(relevant.Gains());
    if |ideal| > 0 && ideal[0] > 0.0 {
      FirstTerm(ideal, d, k);
    } else {
      OneTerm(ideal, 0, 0.0, d, k + 1);
    }
  }

  /** What is recommended beyond the first k does not count. */
  lemma TailIgnored(recommended: seq<int>, relevant: Relevance, k: nat, d: nat -> real)
    ensures NdcgAtK(recommended, relevant, k, d) == NdcgAtK(Take(recommended, k), relevant, k, d)
  {
    var gains := relevant.Gains();
    assert Take(GainsAt(gains, recommended), k) == Take(GainsAt(gains, Take(recommended, k)), k);
  }

  /** A mapping is used as it is; members of a set weigh the same; an unknown id gains nothing. */
  lemma GainsMeaning(relevant: Relevance, id: int)
    requires ValidGains(relevant.Gains())
    ensures relevant.Binary? ==> GainOf(relevant.Gains(), id) == if id in relevant.ids then 1.0 else 0.0
    ensures relevant.Graded? ==> forall x | x in relevant.gains :: GainOf(relevant.Gains(), x.id) == x.gain
    ensures (forall x | x in relevant.Gains() :: x.id != id) ==> GainOf(relevant.Gains(), id) == 0.0
  {
    var gains := relevant.Gains();
    forall a: nat | a < |gains|
      ensures GainOf(gains, gains[a].id) == gains[a].gain
    {
      GainOfEntry(gains, a);
    }
    if forall x | x in gains :: x.id != id {
      GainOfOther(gains, id);
    }
    if relevant.Binary? {
      BinaryGain(relevant.ids, id);
    }
  }

  lemma BinaryGain(ids: seq<int>, id: int)
    requires ValidGains(Binary(ids).Gains())
    ensures GainOf(Binary(ids).Gains(), id) == if id in ids then 1.0 else 0.0
  {
    var gains := Binary(ids).Gains();
    if id in ids {
      var a :| 0 <= a < |ids| && ids[a] == id;
      GainOfEntry(gains, a);
    } else {
      GainOfOther(gains, id);
    }
  }
}
