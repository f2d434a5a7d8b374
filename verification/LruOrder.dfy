/** Recency order of a bounded store: least recently touched key first. */
module LruOrder {
  import opened Basics

  type Key = int

  /** The order without one key. */
  function Without(order: seq<Key>, k: Key): seq<Key> {
    if order == [] then []
    else if order[0] == k then Without(order[1..], k)
    else [order[0]] + Without(order[1..], k)
  }

  /** Make the key the most recent one. */
  function Touch(order: seq<Key>, k: Key): seq<Key> {
    Without(order, k) + [k]
  }

  /** What is left after `popitem(last=False)` until at most `max` keys remain. */
  function Trim(order: seq<Key>, max: nat): (r: seq<Key>)
    ensures |r| == Min(|order|, max)
  {
    if |order| > max then order[|order| - max..] else order
  }

  /** Keys touched more recently than k. */
  function Behind(order: seq<Key>, k: Key): seq<Key> {
    if order == [] then []
    else if order[0] == k then order[1..]
    else Behind(order[1..], k)
  }

  lemma {:induction false} WithoutFacts(order: seq<Key>, k: Key)
    ensures Elems(Without(order, k)) == Elems(order) - {k}
    ensures Distinct(order) ==> Distinct(Without(order, k))
    ensures k !in order ==> Without(order, k) == order
    ensures |Without(order, k)| <= |order|
  {
    if order != [] {
      WithoutFacts(order[1..], k);
      assert order == [order[0]] + order[1..];
      assert Elems(order) == {order[0]} + Elems(order[1..]);
      if order[0] != k {
        assert Elems(Without(order, k)) == {order[0]} + Elems(Without(order[1..], k));
        if Distinct(order) {
          assert Distinct(order[1..]);
          assert order[0] !in Elems(order[1..]);
          assert order[0] !in Elems(Without(order[1..], k));
          ConsDistinct(order[0], Without(order[1..], k));
        }
      } else if Distinct(order) {
        assert Distinct(order[1..]);
      }
    }
  }

  lemma ConsDistinct(x: Key, s: seq<Key>)
    requires Distinct(s) && x !in s
    ensures Distinct([x] + s)
  {}

  lemma TouchFacts(order: seq<Key>, k: Key)
    requires Distinct(order)
    ensures Distinct(Touch(order, k)) && Elems(Touch(order, k)) == Elems(order) + {k}
    ensures Behind(Touch(order, k), k) == []
    ensures |Touch(order, k)| == if k in order then |order| else |order| + 1
  {
    WithoutFacts(order, k);
    ElemsAppend(Without(order, k), k);
    assert k !in Elems(Without(order, k));
    BehindLast(Without(order, k), k);
    DistinctSize(Touch(order, k));
    DistinctSize(order);
  }

  lemma {:induction false} BehindLast(s: seq<Key>, k: Key)
    requires k !in s
    ensures Behind(s + [k], k) == []
  {
    if s != [] {
      assert (s + [k])[1..] == s[1..] + [k];
      BehindLast(s[1..], k);
    }
  }

  lemma {:induction false} BehindWithout(order: seq<Key>, k: Key, x: Key)
    requires k != x && k in order
    ensures k in Without(order, x)
    ensures Behind(Without(order, x), k) == Without(Behind(order, k), x)
  {
    WithoutFacts(order, x);
    assert k in Elems(order) - {x};
    if order[0] != k {
      assert order == [order[0]] + order[1..];
      BehindWithout(order[1..], k, x);
    }
  }

  lemma {:induction false} BehindAppend(s: seq<Key>, k: Key, x: Key)
    requires k in s
    ensures Behind(s + [x], k) == Behind(s, k) + [x]
  {
    assert (s + [x])[1..] == s[1..] + [x];
    if s[0] != k {
      assert s == [s[0]] + s[1..];
      BehindAppend(s[1..], k, x);
    }
  }

  /** Touching another key puts at most that key behind k. */
  lemma BehindTouch(order: seq<Key>, k: Key, x: Key)
    requires k != x && k in order
    ensures k in Touch(order, x)
    ensures Elems(Behind(Touch(order, x), k)) <= Elems(Behind(order, k)) + {x}
  {
    BehindWithout(order, k, x);
    BehindAppend(Without(order, x), k, x);
    WithoutFacts(Behind(order, k), x);
    ElemsAppend(Without(Behind(order, k), x), x);
  }

  lemma {:induction false} BehindSuffix(order: seq<Key>, k: Key) returns (i: nat)
    requires k in order
    ensures i < |order| && order[i] == k && Behind(order, k) == order[i + 1..]
  {
    if order[0] == k {
      i := 0;
    } else {
      assert order == [order[0]] + order[1..];
      i := BehindSuffix(order[1..], k);
      assert order[1..][i + 1..] == order[i + 2..];
      i := i + 1;
    }
  }

  lemma {:induction false} BehindDrop(order: seq<Key>, k: Key, d: nat)
    requires d <= |order| && k in order[d..] && Distinct(order)
    ensures Behind(order[d..], k) == Behind(order, k)
  {
    if d > 0 {
      assert order[1..][d - 1..] == order[d..];
      assert order[0] !in order[d..];
      BehindDrop(order[1..], k, d - 1);
    }
  }

  lemma InSuffix(order: seq<Key>, i: nat, d: nat)
    requires Distinct(order) && i < |order| && d <= |order|
    ensures order[i] in order[d..] <==> i >= d
  {
    if i >= d {
      assert order[d..][i - d] == order[i];
    }
  }

  lemma BehindSize(order: seq<Key>, k: Key, d: nat)
    requires Distinct(order) && k in order && d <= |order|
    ensures k in order[d..] <==> |Behind(order, k)| < |order| - d
  {
    var i := BehindSuffix(order, k);
    InSuffix(order, i, d);
  }

  lemma TrimKeeps(order: seq<Key>, k: Key, max: nat)
    requires Distinct(order) && k in order
    ensures k in Trim(order, max) <==> |order| <= max || |Behind(order, k)| < max
    ensures k in Trim(order, max) ==> Behind(Trim(order, max), k) == Behind(order, k)
  {
    var t := Trim(order, max);
    if |order| <= max {
      assert t == order;
    } else {
      var d := |order| - max;
      assert t == order[d..];
      DropKeeps(order, k, d);
    }
  }

  lemma DropKeeps(order: seq<Key>, k: Key, d: nat)
    requires Distinct(order) && k in order && d <= |order|
    ensures k in order[d..] <==> |Behind(order, k)| < |order| - d
    ensures k in order[d..] ==> Behind(order[d..], k) == Behind(order, k)
  {
    BehindSize(order, k, d);
    if k in order[d..] {
      BehindDrop(order, k, d);
    }
  }

  lemma TrimFacts(order: seq<Key>, max: nat)
    requires Distinct(order)
    ensures Distinct(Trim(order, max)) && Elems(Trim(order, max)) <= Elems(order)
  {}
}
