/** Spreading exploration picks through the slate (pipeline.py, `_interleave`). */
module Interleave {
  import opened Basics

  function Step(mainLen: nat, extraLen: nat): (step: nat)
    ensures step >= 1
  {
    Max(mainLen / (extraLen + 1), 1)
  }

  /** Where extra item i ends up. */
  function ExtraPos(i: nat, step: nat, mainLen: nat): nat {
    i + Min((i + 1) * step, mainLen)
  }

  /** Where main item j ends up once the first `extras` extra items are in. */
  function MainPos(j: nat, step: nat, extras: nat): nat
    requires step >= 1
  {
    j + Min(j / step, extras)
  }

  /** Every item of both lists sits at its computed place, and nothing else is in the result. */
  ghost predicate IsSpread<T>(main: seq<T>, extra: seq<T>, step: nat, out: seq<T>)
    requires step >= 1
  {
    && |out| == |main| + |extra|
    && (forall i: nat | i < |extra| :: ExtraPos(i, step, |main|) < |out| && out[ExtraPos(i, step, |main|)] == extra[i])
    && (forall j: nat | j < |main| :: MainPos(j, step, |extra|) < |out| && out[MainPos(j, step, |extra|)] == main[j])
  }

  lemma QuotientBound(j: nat, step: nat, q: nat)
    requires step >= 1
    ensures q * step <= j <==> q <= j / step
  {
    var d := j / step;
    assert j == d * step + j % step;
    if q <= d {
      assert q * step <= d * step;
    } else {
      assert (d + 1) * step <= q * step;
    }
  }

  function Insert<T>(s: seq<T>, at: nat, x: T): (r: seq<T>)
    requires at <= |s|
    ensures |r| == |s| + 1 && r[at] == x
    ensures forall i | 0 <= i < at :: r[i] == s[i]
    ensures forall i | at <= i < |s| :: r[i + 1] == s[i]
    ensures multiset(r) == multiset(s) + multiset{x}
  {
    assert s == s[..at] + s[at..];
    s[..at] + [x] + s[at..]
  }

  /** Extras already placed stay in front of the next one. */
  lemma ExtraBefore(i: nat, k: nat, step: nat, mainLen: nat)
    requires step >= 1 && i < k
    ensures ExtraPos(i, step, mainLen) < ExtraPos(k, step, mainLen)
  {
    Multiples(i + 1, k + 1, step);
    ClampedBefore(i, k, (i + 1) * step, (k + 1) * step, mainLen);
  }

  lemma Multiples(a: nat, b: nat, step: nat)
    requires a <= b
    ensures a * step <= b * step
  {}

  lemma ClampedBefore(i: nat, k: nat, x: nat, y: nat, bound: nat)
    requires i < k && x <= y
    ensures i + Min(x, bound) < k + Min(y, bound)
  {}

  /** The next extra pushes exactly the main items behind it one place on. */
  lemma MainShift(j: nat, step: nat, n: nat, mainLen: nat)
    requires step >= 1 && j < mainLen
    ensures MainPos(j, step, n + 1)
            == MainPos(j, step, n) + if MainPos(j, step, n) >= ExtraPos(n, step, mainLen) then 1 else 0
  {
    QuotientBound(j, step, n + 1);
  }

  lemma SpreadStep<T>(main: seq<T>, extra: seq<T>, step: nat, out: seq<T>, x: T)
    requires step >= 1 && IsSpread(main, extra, step, out)
    ensures ExtraPos(|extra|, step, |main|) <= |out|
    ensures IsSpread(main, extra + [x], step, Insert(out, ExtraPos(|extra|, step, |main|), x))
  {
    var n := |extra|;
    var at := ExtraPos(n, step, |main|);
    var longer := Insert(out, at, x);
    forall i: nat | i < n
      ensures ExtraPos(i, step, |main|) < at
    {
      ExtraBefore(i, n, step, |main|);
    }
    forall j: nat | j < |main|
      ensures MainPos(j, step, n + 1) < |longer| && longer[MainPos(j, step, n + 1)] == main[j]
    {
      MainShift(j, step, n, |main|);
      assert out[MainPos(j, step, n)] == main[j];
    }
  }

  /** A complete description of the state after the first n extras. */
  ghost predicate Placed<T>(main: seq<T>, extra: seq<T>, step: nat, n: nat, out: seq<T>)
    requires step >= 1 && n <= |extra|
  {
    IsSpread(main, extra[..n], step, out) && multiset(out) == multiset(main) + multiset(extra[..n])
  }

  lemma PlacedStep<T>(main: seq<T>, extra: seq<T>, step: nat, n: nat, out: seq<T>)
    requires step >= 1 && n < |extra| && Placed(main, extra, step, n, out)
    ensures ExtraPos(n, step, |main|) <= |out|
    ensures Placed(main, extra, step, n + 1, Insert(out, ExtraPos(n, step, |main|), extra[n]))
  {
    assert extra[..n + 1] == extra[..n] + [extra[n]];
    SpreadStep(main, extra[..n], step, out, extra[n]);
  }

  lemma PlacedEnds<T>(main: seq<T>, extra: seq<T>, step: nat, out: seq<T>)
    requires step >= 1
    ensures Placed(main, extra, step, 0, main)
    ensures Placed(main, extra, step, |extra|, out)
            ==> IsSpread(main, extra, step, out) && multiset(out) == multiset(main) + multiset(extra)
  {
    assert extra[..|extra|] == extra;
    assert extra[..0] == [];
  }

  /** Position of the insertion that `list.insert` clamps to the current length. */
  function InsertAt(n: nat, step: nat, length: nat): nat {
    Min(n * step + n + step, length)
  }

  lemma InsertPoint(n: nat, step: nat, mainLen: nat)
    ensures InsertAt(n, step, mainLen + n) == ExtraPos(n, step, mainLen)
  {}

  /** Insert one extra item behind its share of main items, or at the end when there are not enough. */
  method PlaceOne<T>(main: seq<T>, extra: seq<T>, step: nat, n: nat, out: seq<T>) returns (r: seq<T>)
    requires step >= 1 && n < |extra| && Placed(main, extra, step, n, out)
    ensures Placed(main, extra, step, n + 1, r)
  {
    PlacedStep(main, extra, step, n, out);
    InsertPoint(n, step, |main|);
    r := Insert(out, InsertAt(n, step, |out|), extra[n]);
  }

  method PlaceAll<T>(main: seq<T>, extra: seq<T>, step: nat) returns (out: seq<T>)
    requires step >= 1
    ensures Placed(main, extra, step, |extra|, out)
  {
    out := main;
    PlacedEnds(main, extra, step, out);
    for n := 0 to |extra|
      invariant Placed(main, extra, step, n, out)
    {
      out := PlaceOne(main, extra, step, n, out);
    }
  }

  method InterleaveLists<T>(main: seq<T>, extra: seq<T>) returns (out: seq<T>)
    ensures IsSpread(main, extra, Step(|main|, |extra|), out)
    ensures multiset(out) == multiset(main) + multiset(extra)
  {
    var step := Step(|main|, |extra|);
    if extra == [] {
      out := main;
    } else {
      out := PlaceAll(main, extra, step);
    }
    PlacedEnds(main, extra, step, out);
  }

  // ---- What the spread guarantees ----

  /** Both lists keep their own order, and a non-empty main list keeps the first place. */
  lemma SpreadKeepsOrder(step: nat, mainLen: nat, extras: nat)
    requires step >= 1
    ensures forall i: nat, k: nat | i < k < extras :: ExtraPos(i, step, mainLen) < ExtraPos(k, step, mainLen)
    ensures forall j: nat, k: nat | j < k < mainLen :: MainPos(j, step, extras) < MainPos(k, step, extras)
    ensures forall i: nat | i < extras && mainLen > 0 :: ExtraPos(i, step, mainLen) > 0
  {
    forall i: nat, k: nat | i < k < extras
      ensures ExtraPos(i, step, mainLen) < ExtraPos(k, step, mainLen)
    {
      ExtraBefore(i, k, step, mainLen);
    }
    forall j: nat, k: nat | j < k < mainLen
      ensures MainPos(j, step, extras) < MainPos(k, step, extras)
    {
      QuotientBound(k, step, j / step);
      QuotientBound(j, step, j / step);
    }
    forall i: nat | i < extras && mainLen > 0
      ensures ExtraPos(i, step, mainLen) > 0
    {
      assert (i + 1) * step >= step;
    }
  }

  lemma StepFits(mainLen: nat, extraLen: nat)
    requires extraLen < mainLen
    ensures Step(mainLen, extraLen) * (extraLen + 1) <= mainLen
  {
    QuotientBound(mainLen, extraLen + 1, 1);
    QuotientBound(mainLen, extraLen + 1, mainLen / (extraLen + 1));
  }

  lemma MulUpTo(a: nat, b: nat, k: nat)
    requires a <= b
    ensures a * k <= k * b
  {}

  /** With more main items than extra ones, consecutive extras have exactly `step` main items between them. */
  lemma SpreadEvenly(mainLen: nat, extraLen: nat, i: nat)
    requires extraLen < mainLen && i + 1 < extraLen
    ensures ExtraPos(i + 1, Step(mainLen, extraLen), mainLen)
            == ExtraPos(i, Step(mainLen, extraLen), mainLen) + Step(mainLen, extraLen) + 1
    ensures ExtraPos(0, Step(mainLen, extraLen), mainLen) == Step(mainLen, extraLen)
  {
    var step := Step(mainLen, extraLen);
    StepFits(mainLen, extraLen);
    MulUpTo(i + 2, extraLen + 1, step);
    MulUpTo(i + 1, extraLen + 1, step);
    MulUpTo(1, extraLen + 1, step);
    assert (i + 2) * step == (i + 1) * step + step;
  }

  // ---- The spread is determined ----

  lemma Apart(j: nat, i: nat, step: nat, mainLen: nat, extras: nat)
    requires step >= 1 && j < mainLen && i < extras
    ensures MainPos(j, step, extras) != ExtraPos(i, step, mainLen)
  {
    QuotientBound(j, step, i + 1);
  }

  function Positions(step: nat, mainLen: nat, extras: nat): (r: seq<nat>)
    requires step >= 1
    ensures |r| == mainLen + extras
  {
    seq(mainLen, j requires 0 <= j < mainLen => MainPos(j, step, extras))
    + seq(extras, i requires 0 <= i < extras => ExtraPos(i, step, mainLen))
  }

  lemma PositionsDistinct(step: nat, mainLen: nat, extras: nat)
    requires step >= 1
    ensures Distinct(Positions(step, mainLen, extras))
  {
    var ps := Positions(step, mainLen, extras);
    SpreadKeepsOrder(step, mainLen, extras);
    forall a, b | 0 <= a < b < |ps|
      ensures ps[a] != ps[b]
    {
      if a < mainLen <= b {
        Apart(a, b - mainLen, step, mainLen, extras);
      }
    }
  }

  /** Every place of the result belongs to one of the two lists, so they determine it. */
  lemma SpreadUnique<T>(main: seq<T>, extra: seq<T>, step: nat, a: seq<T>, b: seq<T>)
    requires step >= 1 && IsSpread(main, extra, step, a) && IsSpread(main, extra, step, b)
    ensures a == b
  {
    var ps := Positions(step, |main|, |extra|);
    PositionsDistinct(step, |main|, |extra|);
    DistinctSize(ps);
    forall x | x in Elems(ps)
      ensures x < |a|
    {
      var q :| 0 <= q < |ps| && ps[q] == x;
      assert q < |main| ==> MainPos(q, step, |extra|) < |a|;
      assert q >= |main| ==> ExtraPos(q - |main|, step, |main|) < |a|;
    }
    IntervalSize(Elems(ps), 0, |a|);
    forall p | 0 <= p < |a|
      ensures a[p] == b[p]
    {
      assert p in Elems(ps);
      var q :| 0 <= q < |ps| && ps[q] == p;
      assert q < |main| ==> a[MainPos(q, step, |extra|)] == b[MainPos(q, step, |extra|)];
      assert q >= |main| ==> a[ExtraPos(q - |main|, step, |main|)] == b[ExtraPos(q - |main|, step, |main|)];
    }
  }
}
