/** Small vocabulary shared by every component. */
module Basics {
  datatype Option<+T> = None | Some(value: T)

  function Max(a: int, b: int): int {
    if a >= b then a else b
  }

  function Min(a: int, b: int): int {
    if a <= b then a else b
  }

  function MaxReal(a: real, b: real): real {
    if a >= b then a else b
  }

  function Abs(x: real): real {
    if x < 0.0 then -x else x
  }

  /** Python slicing `s[:n]`, for a non-negative n; nothing below that. */
  function Take<T>(s: seq<T>, n: int): (r: seq<T>)
    ensures r <= s && |r| == Min(|s|, Max(n, 0))
  {
    s[..Min(|s|, Max(n, 0))]
  }

  /** The elements of a sequence as a set. */
  function Elems<T(==)>(s: seq<T>): set<T> {
    set x | x in s
  }

  ghost predicate Distinct<T>(s: seq<T>) {
    forall i, j | 0 <= i < j < |s| :: s[i] != s[j]
  }

  lemma ElemsAppend<T>(s: seq<T>, x: T)
    ensures Elems(s + [x]) == Elems(s) + {x}
  {}

  lemma DistinctSize<T>(s: seq<T>)
    requires Distinct(s)
    ensures |Elems(s)| == |s|
  {
    if s != [] {
      var last := |s| - 1;
      assert s == s[..last] + [s[last]];
      ElemsAppend(s[..last], s[last]);
      DistinctSize(s[..last]);
    }
  }

  lemma Pick<T>(s: set<T>) returns (x: T)
    requires s != {}
    ensures x in s
  {
    x :| x in s;
  }

  lemma SubsetSize<T>(a: set<T>, b: set<T>)
    requires a <= b
    ensures |a| <= |b|
    ensures |a| == |b| ==> a == b
  {
    assert b == a + (b - a);
    assert |b| == |a| + |b - a|;
  }

  /** A set inside an interval is no larger than it, and fills it when it is as large. */
  lemma {:induction false} IntervalSize(S: set<nat>, lo: nat, len: nat)
    requires forall i | i in S :: lo <= i < lo + len
    ensures |S| <= len
    ensures |S| == len ==> forall i: nat | lo <= i < lo + len :: i in S
    decreases len
  {
    if len == 0 {
      assert S == {};
    } else {
      var last := lo + len - 1;
      IntervalSize(S - {last}, lo, len - 1);
      if last in S {
        assert S == S - {last} + {last};
        forall i: nat | |S| == len && lo <= i < lo + len
          ensures i in S
        {
          assert i == last || i in S - {last};
        }
      } else {
        assert S - {last} == S;
      }
    }
  }

  lemma LargerHasExtra<T>(a: set<T>, b: set<T>) returns (x: T)
    requires |b| < |a|
    ensures x in a && x !in b
  {
    if forall y | y in a :: y in b {
      SubsetSize(a, b);
    }
    x :| x in a && x !in b;
  }
}

/** Sums over index sets and group counts: the arithmetic of slates. */
module Sums {
  import opened Basics

  /** Sum of `w` over the members of `S` below `n`. */
  ghost function Total(w: seq<real>, S: set<nat>, n: nat): real
    requires n <= |w|
  {
    if n == 0 then 0.0
    else Total(w, S, n - 1) + if n - 1 in S then w[n - 1] else 0.0
  }

  ghost predicate Within(S: set<nat>, n: nat) {
    forall i | i in S :: i < n
  }

  /** Members of `S` that belong to group `g`. */
  ghost function InGroup(S: set<nat>, groups: seq<int>, g: int): set<nat> {
    set i | i in S && i < |groups| && groups[i] == g
  }

  lemma {:induction false} TotalAdd(w: seq<real>, S: set<nat>, x: nat, n: nat)
    requires n <= |w| && x !in S
    ensures Total(w, S + {x}, n) == Total(w, S, n) + if x < n then w[x] else 0.0
  {
    if n > 0 {
      TotalAdd(w, S, x, n - 1);
    }
  }

  lemma TotalSwap(w: seq<real>, S: set<nat>, out: nat, inn: nat, n: nat)
    requires n <= |w| && out in S && inn !in S && out < n && inn < n
    ensures Total(w, S - {out} + {inn}, n) == Total(w, S, n) - w[out] + w[inn]
  {
    TotalAdd(w, S - {out}, out, n);
    assert S - {out} + {out} == S;
    TotalAdd(w, S - {out}, inn, n);
  }

  lemma InGroupAdd(S: set<nat>, groups: seq<int>, x: nat, g: int)
    requires x !in S && x < |groups|
    ensures |InGroup(S + {x}, groups, g)| == |InGroup(S, groups, g)| + if groups[x] == g then 1 else 0
  {
    if groups[x] == g {
      assert InGroup(S + {x}, groups, g) == InGroup(S, groups, g) + {x};
    } else {
      assert InGroup(S + {x}, groups, g) == InGroup(S, groups, g);
    }
  }

  lemma InGroupMono(S: set<nat>, T: set<nat>, groups: seq<int>, g: int)
    requires S <= T
    ensures |InGroup(S, groups, g)| <= |InGroup(T, groups, g)|
  {
    SubsetSize(InGroup(S, groups, g), InGroup(T, groups, g));
  }

  /** Members of `S` whose group lies in `Gs`. */
  ghost function InGroups(S: set<nat>, groups: seq<int>, Gs: set<int>): set<nat> {
    set i | i in S && i < |groups| && groups[i] in Gs
  }

  /** A set no larger than another in every group is no larger, and strictly smaller if so in one group. */
  lemma {:induction false} GroupwiseCompare(T: set<nat>, S: set<nat>, groups: seq<int>, Gs: set<int>)
    requires forall g | g in Gs :: |InGroup(T, groups, g)| <= |InGroup(S, groups, g)|
    ensures |InGroups(T, groups, Gs)| <= |InGroups(S, groups, Gs)|
    ensures (exists g | g in Gs :: |InGroup(T, groups, g)| < |InGroup(S, groups, g)|)
            ==> |InGroups(T, groups, Gs)| < |InGroups(S, groups, Gs)|
    decreases Gs
  {
    if Gs != {} {
      var g := Pick(Gs);
      GroupwiseCompare(T, S, groups, Gs - {g});
      SplitGroup(T, groups, Gs, g);
      SplitGroup(S, groups, Gs, g);
    }
  }

  lemma SplitGroup(S: set<nat>, groups: seq<int>, Gs: set<int>, g: int)
    requires g in Gs
    ensures |InGroups(S, groups, Gs)| == |InGroups(S, groups, Gs - {g})| + |InGroup(S, groups, g)|
  {
    assert InGroups(S, groups, Gs) == InGroups(S, groups, Gs - {g}) + InGroup(S, groups, g);
    assert InGroups(S, groups, Gs - {g}) !! InGroup(S, groups, g);
  }

  /** The same comparison over all groups at once. */
  lemma CompareByGroup(T: set<nat>, S: set<nat>, groups: seq<int>)
    requires Within(T, |groups|) && Within(S, |groups|)
    requires forall g :: |InGroup(T, groups, g)| <= |InGroup(S, groups, g)|
    ensures |T| <= |S|
    ensures (exists g :: |InGroup(T, groups, g)| < |InGroup(S, groups, g)|) ==> |T| < |S|
  {
    var Gs := set i | 0 <= i < |groups| :: groups[i];
    GroupwiseCompare(T, S, groups, Gs);
    assert InGroups(T, groups, Gs) == T;
    assert InGroups(S, groups, Gs) == S;
    forall g | |InGroup(T, groups, g)| < |InGroup(S, groups, g)|
      ensures g in Gs
    {
      var i :| i in InGroup(S, groups, g);
    }
  }
}

/** Stable argsort, the one sorting primitive used by ranking, signals and metrics. */
module Sorting {
  import opened Basics

  /** Strict order of indices: smaller key first, ties by position. */
  predicate Precedes(keys: seq<real>, i: nat, j: nat)
    requires i < |keys| && j < |keys|
  {
    keys[i] < keys[j] || (keys[i] == keys[j] && i < j)
  }

  predicate InRange(o: seq<nat>, n: nat) {
    forall a | 0 <= a < |o| :: o[a] < n
  }

  /** `o` lists every index of `keys` once, in stable ascending order. */
  ghost predicate IsStableOrder(keys: seq<real>, o: seq<nat>) {
    && |o| == |keys|
    && InRange(o, |keys|)
    && (forall a, b | 0 <= a < b < |o| :: Precedes(keys, o[a], o[b]))
    && (forall i: nat | i < |keys| :: i in o)
  }

  function StableArgsort(keys: seq<real>): (o: seq<nat>)
    ensures IsStableOrder(keys, o)
  {
    if keys == [] then []
    else
      var last := |keys| - 1;
      var prefix := StableArgsort(keys[..last]);
      assert forall a, b | 0 <= a < b < |prefix| :: Precedes(keys[..last], prefix[a], prefix[b]);
      InsertLast(keys, prefix)
  }

  /** Puts the last index behind everything that is not larger. */
  function InsertLast(keys: seq<real>, o: seq<nat>): (r: seq<nat>)
    requires keys != [] && InRange(o, |keys| - 1)
    requires forall a, b | 0 <= a < b < |o| :: Precedes(keys, o[a], o[b])
    ensures |r| == |o| + 1 && InRange(r, |keys|)
    ensures forall a, b | 0 <= a < b < |r| :: Precedes(keys, r[a], r[b])
    ensures forall i :: i in r <==> i in o || i == |keys| - 1
  {
    var last := |keys| - 1;
    if o == [] then [last]
    else
      var end := |o| - 1;
      if keys[o[end]] <= keys[last] then
        assert forall a | 0 <= a < end :: Precedes(keys, o[a], o[end]);
        assert forall a | 0 <= a <= end :: Precedes(keys, o[a], last);
        o + [last]
      else
        var r' := InsertLast(keys, o[..end]);
        assert o == o[..end] + [o[end]];
        assert forall a | 0 <= a < |r'| :: r'[a] in o[..end] || r'[a] == last;
        r' + [o[end]]
  }

  lemma StableOrderDistinct(keys: seq<real>, o: seq<nat>)
    requires IsStableOrder(keys, o)
    ensures Distinct(o)
  {
    forall i, j | 0 <= i < j < |o|
      ensures o[i] != o[j]
    {
      assert Precedes(keys, o[i], o[j]);
    }
  }

  function Negated(keys: seq<real>): (r: seq<real>)
    ensures |r| == |keys| && forall i | 0 <= i < |keys| :: r[i] == -keys[i]
  {
    seq(|keys|, i requires 0 <= i < |keys| => -keys[i])
  }

  /** Indices by descending key: largest key first, ties by position. */
  function ArgsortDescending(keys: seq<real>): (o: seq<nat>)
    ensures IsStableOrder(Negated(keys), o)
  {
    StableArgsort(Negated(keys))
  }
}

/** Sums over sequences that do not depend on the order of the terms. */
module Folds {
  import opened Basics
  import opened Sorting

  ghost function SumOf<T>(s: seq<T>, f: T -> real): real {
    if s == [] then 0.0 else SumOf(s[..|s| - 1], f) + f(s[|s| - 1])
  }

  lemma SumAppend<T>(s: seq<T>, x: T, f: T -> real)
    ensures SumOf(s + [x], f) == SumOf(s, f) + f(x)
  {
    assert (s + [x])[..|s|] == s;
  }

  lemma {:induction false} SumRemove<T>(s: seq<T>, f: T -> real, i: nat)
    requires i < |s|
    ensures SumOf(s, f) == SumOf(s[..i] + s[i + 1..], f) + f(s[i])
  {
    var last := |s| - 1;
    if i == last {
      assert s[..i] + s[i + 1..] == s[..last];
    } else {
      SumRemove(s[..last], f, i);
      var less := s[..i] + s[i + 1..];
      assert less[..|less| - 1] == s[..last][..i] + s[..last][i + 1..];
    }
  }

  lemma {:induction false} SumPermuted<T>(a: seq<T>, b: seq<T>, f: T -> real)
    requires multiset(a) == multiset(b)
    ensures SumOf(a, f) == SumOf(b, f)
  {
    if a == [] {
      assert |b| == |multiset(b)| == 0;
    } else {
      var i := LastAmong(a, b);
      SumPermuted(a[..|a| - 1], b[..i] + b[i + 1..], f);
      SumRemove(b, f, i);
    }
  }

  /** Where the last item of one arrangement is in the other. */
  lemma LastAmong<T>(a: seq<T>, b: seq<T>) returns (i: nat)
    requires multiset(a) == multiset(b) && a != []
    ensures i < |b| && b[i] == a[|a| - 1]
    ensures multiset(a[..|a| - 1]) == multiset(b[..i] + b[i + 1..])
  {
    var x := a[|a| - 1];
    assert a == a[..|a| - 1] + [x];
    assert x in multiset(b);
    i :| 0 <= i < |b| && b[i] == x;
    MultisetWithout(b, i);
    CancelOne(multiset(a[..|a| - 1]), multiset(b[..i] + b[i + 1..]), x);
  }

  lemma CancelOne<T>(p: multiset<T>, q: multiset<T>, x: T)
    requires p + multiset{x} == q + multiset{x}
    ensures p == q
  {
    assert p == (p + multiset{x}) - multiset{x};
    assert q == (q + multiset{x}) - multiset{x};
  }

  lemma {:induction false} DistinctCounts<T>(s: seq<T>)
    requires Distinct(s)
    ensures multiset(s) == multiset(Elems(s))
  {
    if s != [] {
      var last := |s| - 1;
      assert s == s[..last] + [s[last]];
      DistinctCounts(s[..last]);
      ElemsAppend(s[..last], s[last]);
    }
  }

  lemma MultisetWithout<T>(s: seq<T>, p: nat)
    requires p < |s|
    ensures multiset(s) == multiset(s[..p] + s[p + 1..]) + multiset{s[p]}
  {
    assert s == s[..p] + [s[p]] + s[p + 1..];
  }

  lemma OrderWithout(o: seq<nat>, p: nat, n: nat)
    requires p < |o| && InRange(o, n + 1) && Distinct(o) && o[p] == n
    requires forall i: nat | i < n + 1 :: i in o
    ensures var o' := o[..p] + o[p + 1..]; InRange(o', n) && Distinct(o') && forall i: nat | i < n :: i in o'
  {
    var o' := o[..p] + o[p + 1..];
    assert forall i | 0 <= i < |o'| :: o'[i] == o[if i < p then i else i + 1];
    forall i: nat | i < n
      ensures i in o'
    {
      assert i in o;
      var q :| 0 <= q < |o| && o[q] == i;
      assert o'[if q < p then q else q - 1] == i;
    }
  }

  lemma {:induction false} ReorderedMultiset<T>(s: seq<T>, o: seq<nat>, r: seq<T>)
    requires |o| == |s| == |r| && InRange(o, |s|) && Distinct(o)
    requires forall i: nat | i < |s| :: i in o
    requires forall i | 0 <= i < |r| :: r[i] == s[o[i]]
    ensures multiset(r) == multiset(s)
  {
    if s != [] {
      var last := |s| - 1;
      assert last in o;
      var p :| 0 <= p < |o| && o[p] == last;
      OrderWithout(o, p, last);
      ReorderedWithout(s, o, r, p, last);
      ReorderedMultiset(s[..last], o[..p] + o[p + 1..], r[..p] + r[p + 1..]);
      MultisetWithout(r, p);
      MultisetWithout(s, last);
      assert s[..last] + s[last + 1..] == s[..last];
    }
  }

  lemma ReorderedWithout<T>(s: seq<T>, o: seq<nat>, r: seq<T>, p: nat, last: nat)
    requires |o| == |s| == |r| && InRange(o, |s|) && p < |r| && last + 1 == |s|
    requires forall i | 0 <= i < |r| :: r[i] == s[o[i]]
    requires InRange(o[..p] + o[p + 1..], last)
    ensures var o', r' := o[..p] + o[p + 1..], r[..p] + r[p + 1..];
            forall i | 0 <= i < |r'| :: r'[i] == s[..last][o'[i]]
  {
    var o', r' := o[..p] + o[p + 1..], r[..p] + r[p + 1..];
    forall i | 0 <= i < |r'|
      ensures r'[i] == s[..last][o'[i]]
    {
      assert r'[i] == r[if i < p then i else i + 1];
    }
  }

  lemma SameMembers<T>(a: seq<T>, b: seq<T>)
    requires multiset(a) == multiset(b)
    ensures forall x :: x in a <==> x in b
  {
    forall x
      ensures x in a <==> x in b
    {
      assert x in a <==> x in multiset(a);
      assert x in b <==> x in multiset(b);
    }
  }

  lemma DistinctFront<T>(s: seq<T>)
    requires s != [] && Distinct(s)
    ensures Distinct(s[..|s| - 1])
    ensures forall x :: x in s[..|s| - 1] <==> x in s && x != s[|s| - 1]
  {
    assert s == s[..|s| - 1] + [s[|s| - 1]];
  }

  /** Terms that are zero may be left out. */
  lemma {:induction false} SumDropsZeros<T>(all: seq<T>, part: seq<T>, f: T -> real)
    requires Distinct(all) && Distinct(part)
    requires forall x | x in part :: x in all
    requires forall x | x in all && x !in part :: f(x) == 0.0
    ensures SumOf(all, f) == SumOf(part, f)
  {
    assert part == [] || part[0] in all;
    if all == [] {
    } else {
      var last := |all| - 1;
      var x := all[last];
      if x in part {
        var i :| 0 <= i < |part| && part[i] == x;
        SumRemove(part, f, i);
        var less := part[..i] + part[i + 1..];
        DistinctWithout(part, i);
        DistinctFront(all);
        forall y | y in less
          ensures y in all[..last]
        {
          assert y in part && y != x;
        }
        SumDropsZeros(all[..last], less, f);
      } else {
        DistinctFront(all);
        SumDropsZeros(all[..last], part, f);
      }
    }
  }

  lemma DistinctWithout<T>(s: seq<T>, p: nat)
    requires p < |s| && Distinct(s)
    ensures var less := s[..p] + s[p + 1..];
            Distinct(less) && s[p] !in less && forall x | x in s && x != s[p] :: x in less
    ensures forall x | x in s[..p] + s[p + 1..] :: x in s
  {
    var less := s[..p] + s[p + 1..];
    assert forall i | 0 <= i < |less| :: less[i] == s[if i < p then i else i + 1];
    forall x | x in s && x != s[p]
      ensures x in less
    {
      var q :| 0 <= q < |s| && s[q] == x;
      assert less[if q < p then q else q - 1] == x;
    }
  }
}
