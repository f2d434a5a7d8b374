/** Greedy maximal marginal relevance with an optional cap per group (pipeline.py, `_mmr_order`). */
module Mmr {
  import opened Basics
  import opened Sums
  import opened Vectors

  datatype Caps = Caps(groups: seq<int>, max: int)

  /** One diversification problem: candidates are the indices of `relevance`. */
  datatype Problem = Problem(relevance: seq<real>, unit: seq<Vec>, lambda: real, caps: Option<Caps>) {
    ghost predicate Valid() {
      && |unit| == |relevance|
      && Rectangular(unit)
      && (caps.Some? ==> |caps.value.groups| == |relevance|)
    }

    /** The source tests the cap after counting a pick, so a cap below one still admits one. */
    function Ceiling(): int
      requires caps.Some?
    {
      Max(1, caps.value.max)
    }
  }

  // ---- The quadratic definition ----

  /** max(0, greatest similarity of candidate i to any pick), recomputed from scratch. */
  function MaxSim(unit: seq<Vec>, i: nat, picks: seq<nat>): real
    requires Rectangular(unit) && i < |unit|
    requires forall j | 0 <= j < |picks| :: picks[j] < |unit|
  {
    if picks == [] then 0.0
    else
      var last := |picks| - 1;
      MaxReal(MaxSim(unit, i, picks[..last]), Dot(unit[i], unit[picks[last]]))
  }

  function Value(p: Problem, picks: seq<nat>, i: nat): real
    requires p.Valid() && i < |p.relevance|
    requires forall j | 0 <= j < |picks| :: picks[j] < |p.relevance|
  {
    if picks == [] then p.relevance[i]
    else p.lambda * p.relevance[i] - (1.0 - p.lambda) * MaxSim(p.unit, i, picks)
  }

  ghost function GroupCount(p: Problem, picks: seq<nat>, g: int): nat
    requires p.caps.Some?
  {
    |InGroup(Elems(picks), p.caps.value.groups, g)|
  }

  /** Still selectable: unpicked, and its group below the ceiling. */
  ghost predicate Open(p: Problem, picks: seq<nat>, i: nat)
    requires p.Valid()
  {
    && i < |p.relevance|
    && i !in picks
    && (p.caps.Some? ==> GroupCount(p, picks, p.caps.value.groups[i]) < p.Ceiling())
  }

  ghost predicate InPool(p: Problem, picks: seq<nat>) {
    forall j | 0 <= j < |picks| :: picks[j] < |p.relevance|
  }

  /** i is the first index of greatest value among the open candidates. */
  ghost predicate IsFirstBest(p: Problem, picks: seq<nat>, i: nat)
    requires p.Valid() && InPool(p, picks)
  {
    && Open(p, picks, i)
    && forall j: nat | Open(p, picks, j) ::
         Value(p, picks, j) < Value(p, picks, i) || (Value(p, picks, j) == Value(p, picks, i) && i <= j)
  }

  /** The whole greedy run, stated pick by pick against the quadratic definition. */
  ghost predicate IsGreedyRun(p: Problem, k: int, chosen: seq<nat>)
    requires p.Valid()
  {
    && |chosen| <= Max(k, 0)
    && InPool(p, chosen)
    && (forall t | 0 <= t < |chosen| :: IsFirstBest(p, chosen[..t], chosen[t]))
    && (|chosen| < k ==> forall i: nat :: !Open(p, chosen, i))
  }

  // ---- The vectorised loop ----

  /** A masked score: numpy stores minus infinity for an unavailable candidate. */
  datatype Masked = NegInf | Finite(v: real)

  predicate Below(a: Masked, b: Masked) {
    match (a, b)
    case (_, NegInf) => false
    case (NegInf, Finite(_)) => true
    case (Finite(x), Finite(y)) => x < y
  }

  ghost predicate IsFirstMax(s: seq<Masked>, best: nat) {
    && best < |s|
    && (forall j | 0 <= j < |s| :: !Below(s[best], s[j]))
    && (forall j | 0 <= j < best :: Below(s[j], s[best]))
  }

  /** The first index of the greatest entry. */
  method ArgMax(s: seq<Masked>) returns (best: nat)
    requires s != []
    ensures IsFirstMax(s, best)
  {
    best := 0;
    for i := 1 to |s|
      invariant best < i
      invariant forall j | 0 <= j < i :: !Below(s[best], s[j])
      invariant forall j | 0 <= j < best :: Below(s[j], s[best])
    {
      if Below(s[best], s[i]) {
        best := i;
      }
    }
  }

  /** Raise every candidate's running maximum to its similarity with the new pick. */
  method RaiseSimilarity(unit: seq<Vec>, pick: nat, maxSim: array<real>)
    requires Rectangular(unit) && pick < |unit| && maxSim.Length == |unit|
    modifies maxSim
    ensures forall i | 0 <= i < |unit| :: maxSim[i] == MaxReal(old(maxSim[i]), Dot(unit[i], unit[pick]))
  {
    for i := 0 to |unit|
      invariant forall j | 0 <= j < i :: maxSim[j] == MaxReal(old(maxSim[j]), Dot(unit[j], unit[pick]))
      invariant forall j | i <= j < |unit| :: maxSim[j] == old(maxSim[j])
    {
      maxSim[i] := MaxReal(maxSim[i], Dot(unit[i], unit[pick]));
    }
  }

  /** Take every candidate of a full group out of the running. */
  method CloseGroup(groups: seq<int>, g: int, available: array<bool>)
    requires available.Length == |groups|
    modifies available
    ensures forall i | 0 <= i < |groups| :: available[i] == (old(available[i]) && groups[i] != g)
  {
    for i := 0 to |groups|
      invariant forall j | 0 <= j < i :: available[j] == (old(available[j]) && groups[j] != g)
      invariant forall j | i <= j < |groups| :: available[j] == old(available[j])
    {
      available[i] := available[i] && groups[i] != g;
    }
  }

  function Lookup(m: map<int, nat>, g: int): nat {
    if g in m then m[g] else 0
  }

  /** What the loop's arrays mean: the availability mask, the running maxima and the counters. */
  ghost predicate Tracks(p: Problem, picks: seq<nat>, available: seq<bool>, maxSim: seq<real>, perGroup: map<int, nat>)
    requires p.Valid()
  {
    && InPool(p, picks)
    && |available| == |maxSim| == |p.relevance|
    && (forall i: nat | i < |available| :: available[i] <==> Open(p, picks, i))
    && (forall i: nat | i < |maxSim| :: maxSim[i] == MaxSim(p.unit, i, picks))
    && (p.caps.Some? ==> forall g :: Lookup(perGroup, g) == GroupCount(p, picks, g))
  }

  /** The masked objective: the value of every open candidate. */
  ghost predicate IsScore(p: Problem, picks: seq<nat>, mmr: seq<Masked>)
    requires p.Valid() && InPool(p, picks)
  {
    && |mmr| == |p.relevance|
    && forall i: nat | i < |mmr| :: mmr[i] == if Open(p, picks, i) then Finite(Value(p, picks, i)) else NegInf
  }

  /** Every pick was the first best of its moment. */
  ghost predicate IsRun(p: Problem, chosen: seq<nat>)
    requires p.Valid()
  {
    InPool(p, chosen) && forall t | 0 <= t < |chosen| :: IsFirstBest(p, chosen[..t], chosen[t])
  }

  method MmrOrder(p: Problem, k: int) returns (chosen: seq<nat>)
    requires p.Valid()
    ensures IsGreedyRun(p, k, chosen)
  {
    var n := |p.relevance|;
    chosen := [];
    if n == 0 || k <= 0 {
      return;
    }
    var available := new bool[n](_ => true);
    var maxSim := new real[n](_ => 0.0);
    var perGroup: map<int, nat> := map[];
    StartTracks(p, available[..], maxSim[..]);
    while |chosen| < k
      invariant |chosen| <= k
      invariant Tracks(p, chosen, available[..], maxSim[..], perGroup)
      invariant IsRun(p, chosen)
      decreases k - |chosen|
    {
      var mmr := Score(p, chosen, available, maxSim, perGroup);
      var pick := ArgMax(mmr);
      if mmr[pick] == NegInf {
        NoneOpen(p, chosen, mmr, pick);
        break;
      }
      PickIsBest(p, chosen, mmr, pick);
      RunGrows(p, chosen, pick);
      perGroup := Select(p, chosen, pick, available, maxSim, perGroup);
      chosen := chosen + [pick];
    }
  }

  /** The masked objective: plain relevance for the first pick, the trade-off afterwards. */
  method Score(p: Problem, chosen: seq<nat>, available: array<bool>, maxSim: array<real>, ghost perGroup: map<int, nat>)
    returns (mmr: seq<Masked>)
    requires p.Valid() && Tracks(p, chosen, available[..], maxSim[..], perGroup)
    ensures IsScore(p, chosen, mmr)
  {
    var n := |p.relevance|;
    ghost var mask, sims := available[..], maxSim[..];
    if chosen != [] {
      mmr := seq(n, i requires 0 <= i < n reads available, maxSim =>
        if available[i] then Finite(p.lambda * p.relevance[i] - (1.0 - p.lambda) * maxSim[i]) else NegInf);
    } else {
      mmr := seq(n, i requires 0 <= i < n reads available =>
        if available[i] then Finite(p.relevance[i]) else NegInf);
    }
    forall i: nat | i < n
      ensures mmr[i] == if Open(p, chosen, i) then Finite(Value(p, chosen, i)) else NegInf
    {
      assert mask[i] == available[i] && sims[i] == maxSim[i];
    }
  }

  /** Take the pick out of the running, raise the running maxima, and close its group once it is full. */
  method Select(p: Problem, ghost chosen: seq<nat>, pick: nat, available: array<bool>, maxSim: array<real>,
                perGroup: map<int, nat>)
    returns (counts: map<int, nat>)
    requires p.Valid() && Tracks(p, chosen, available[..], maxSim[..], perGroup) && Open(p, chosen, pick)
    modifies available, maxSim
    ensures Tracks(p, chosen + [pick], available[..], maxSim[..], counts)
  {
    ghost var mask, sims := available[..], maxSim[..];
    available[pick] := false;
    RaiseSimilarity(p.unit, pick, maxSim);
    counts := perGroup;
    if p.caps.Some? {
      var g := p.caps.value.groups[pick];
      counts := counts[g := Lookup(counts, g) + 1];
      if counts[g] >= p.caps.value.max {
        CloseGroup(p.caps.value.groups, g, available);
      }
    }
    TracksStep(p, chosen, mask, sims, perGroup, pick, available[..], maxSim[..], counts);
  }

  // ---- Lemmas used by the loop ----

  lemma StartTracks(p: Problem, available: seq<bool>, maxSim: seq<real>)
    requires p.Valid() && |available| == |maxSim| == |p.relevance|
    requires forall i | 0 <= i < |available| :: available[i] && maxSim[i] == 0.0
    ensures Tracks(p, [], available, maxSim, map[])
  {
    if p.caps.Some? {
      forall g
        ensures GroupCount(p, [], g) == 0
      {
        assert InGroup(Elems<nat>([]), p.caps.value.groups, g) == {};
      }
    }
  }

  lemma RunGrows(p: Problem, chosen: seq<nat>, pick: nat)
    requires p.Valid() && IsRun(p, chosen) && pick < |p.relevance| && IsFirstBest(p, chosen, pick)
    ensures IsRun(p, chosen + [pick])
  {
    var longer := chosen + [pick];
    forall t | 0 <= t < |longer|
      ensures IsFirstBest(p, longer[..t], longer[t])
    {
      assert longer[..t] == chosen[..t];
      assert chosen[..|chosen|] == chosen;
    }
  }

  lemma TracksStep(p: Problem, picks: seq<nat>, mask: seq<bool>, sims: seq<real>, counts: map<int, nat>,
                   pick: nat, mask': seq<bool>, sims': seq<real>, counts': map<int, nat>)
    requires p.Valid() && Tracks(p, picks, mask, sims, counts) && Open(p, picks, pick)
    requires |mask'| == |sims'| == |p.relevance|
    requires forall i: nat | i < |sims'| :: sims'[i] == MaxReal(sims[i], Dot(p.unit[i], p.unit[pick]))
    requires p.caps.Some?
             ==> counts' == counts[p.caps.value.groups[pick] := Lookup(counts, p.caps.value.groups[pick]) + 1]
    requires forall i: nat | i < |mask'| :: mask'[i] <==>
               mask[i] && i != pick
               && (p.caps.Some? && p.caps.value.groups[i] == p.caps.value.groups[pick]
                   ==> counts'[p.caps.value.groups[pick]] < p.caps.value.max)
    ensures Tracks(p, picks + [pick], mask', sims', counts')
  {
    var longer := picks + [pick];
    forall i: nat | i < |sims'|
      ensures sims'[i] == MaxSim(p.unit, i, longer)
    {
      assert longer[..|longer| - 1] == picks;
    }
    if p.caps.Some? {
      CountsAfter(p, picks, pick);
    }
    OpenAfter(p, picks, pick);
  }

  lemma NoneOpen(p: Problem, picks: seq<nat>, mmr: seq<Masked>, pick: nat)
    requires p.Valid() && InPool(p, picks) && IsScore(p, picks, mmr) && IsFirstMax(mmr, pick) && mmr[pick] == NegInf
    ensures forall i: nat :: !Open(p, picks, i)
  {
    forall i: nat
      ensures !Open(p, picks, i)
    {
      if i < |mmr| {
        assert !Below(mmr[pick], mmr[i]);
      }
    }
  }

  lemma PickIsBest(p: Problem, picks: seq<nat>, mmr: seq<Masked>, pick: nat)
    requires p.Valid() && InPool(p, picks) && IsScore(p, picks, mmr) && IsFirstMax(mmr, pick) && mmr[pick].Finite?
    ensures IsFirstBest(p, picks, pick)
  {
    forall j: nat | Open(p, picks, j)
      ensures Value(p, picks, j) < Value(p, picks, pick)
              || (Value(p, picks, j) == Value(p, picks, pick) && pick <= j)
    {
      assert !Below(mmr[pick], mmr[j]);
      assert j < pick ==> Below(mmr[j], mmr[pick]);
    }
  }

  lemma CountsAfter(p: Problem, picks: seq<nat>, pick: nat)
    requires p.Valid() && p.caps.Some? && pick < |p.relevance| && pick !in picks
    ensures forall g :: GroupCount(p, picks + [pick], g)
                        == GroupCount(p, picks, g) + if p.caps.value.groups[pick] == g then 1 else 0
  {
    ElemsAppend(picks, pick);
    forall g
      ensures GroupCount(p, picks + [pick], g)
              == GroupCount(p, picks, g) + if p.caps.value.groups[pick] == g then 1 else 0
    {
      InGroupAdd(Elems(picks), p.caps.value.groups, pick, g);
    }
  }

  lemma OpenAfter(p: Problem, picks: seq<nat>, pick: nat)
    requires p.Valid() && Open(p, picks, pick)
    ensures forall i: nat :: Open(p, picks + [pick], i) <==>
              Open(p, picks, i) && i != pick
              && (p.caps.Some? && p.caps.value.groups[i] == p.caps.value.groups[pick]
                  ==> GroupCount(p, picks, p.caps.value.groups[i]) + 1 < p.Ceiling())
  {
    if p.caps.Some? {
      CountsAfter(p, picks, pick);
    }
  }
}
