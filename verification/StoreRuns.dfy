/** Whole runs of the bounded store: freshness of what `get` returns, and LRU survival. */
module StoreRuns {
  import opened Basics
  import opened LruOrder
  import opened StoreSpec

  datatype Call = Call(op: Op, at: real)

  function Run(s: Store, calls: seq<Call>): Store {
    if calls == [] then s
    else
      var last := calls[|calls| - 1];
      Step(Run(s, calls[..|calls| - 1]), last.op, last.at).1
  }

  lemma {:induction false} RunValid(s: Store, calls: seq<Call>)
    requires s.Valid()
    ensures Run(s, calls).Valid() && Run(s, calls).max == s.max
  {
    if calls != [] {
      var n := |calls| - 1;
      RunValid(s, calls[..n]);
      StepValid(Run(s, calls[..n]), calls[n].op, calls[n].at);
    }
  }

  // ---- The unbounded store that remembers every latest write ----

  /** The write an operation performs, if any. */
  function Written(s: Store, op: Op, now: real): Option<Entry> {
    match op
    case Set(_, text, ttl) => Some(Entry(Text(text), now + Max(ttl, 1) as real))
    case Hit(k, window) => HitWrite(s, k, window, now)
    case _ => None
  }

  /** Latest entry ever written for each key, never evicted and never expired. */
  function Latest(s: Store, calls: seq<Call>): map<Key, Entry> {
    if calls == [] then map[]
    else
      var n := |calls| - 1;
      var before := Latest(s, calls[..n]);
      match Written(Run(s, calls[..n]), calls[n].op, calls[n].at)
      case None => before
      case Some(e) => before[calls[n].op.key := e]
  }

  lemma HitWrites(s: Store, x: Key, window: nat, now: real, k: Key)
    requires s.Valid() && k in HitStep(s, x, window, now).1.data
    ensures var t := HitStep(s, x, window, now).1;
            var written := HitWrite(s, x, window, now);
            if written.Some? && x == k then t.data[k] == written.value else k in s.data && t.data[k] == s.data[k]
  {
    ProbeValid(s, x, now);
    var written := HitWrite(s, x, window, now);
    if written.Some? {
      PutValid(Probe(s, x, now), x, written.value);
    }
  }

  lemma StepWrites(s: Store, op: Op, now: real, k: Key)
    requires s.Valid() && k in Step(s, op, now).1.data
    ensures var t := Step(s, op, now).1;
            if Written(s, op, now).Some? && op.key == k then t.data[k] == Written(s, op, now).value
            else k in s.data && t.data[k] == s.data[k]
  {
    match op
    case Set(x, text, ttl) => PutValid(s, x, Entry(Text(text), now + Max(ttl, 1) as real));
    case Hit(x, window) => HitWrites(s, x, window, now, k);
    case _ =>
  }

  /** The bounded store is always a part of the unbounded one. */
  lemma {:induction false} StoreRefinesLatest(s: Store, calls: seq<Call>, k: Key)
    requires s.Valid() && s.data == map[] && k in Run(s, calls).data
    ensures k in Latest(s, calls) && Run(s, calls).data[k] == Latest(s, calls)[k]
  {
    if calls != [] {
      var n := |calls| - 1;
      var before := Run(s, calls[..n]);
      RunValid(s, calls[..n]);
      StepWrites(before, calls[n].op, calls[n].at, k);
      if k in before.data {
        StoreRefinesLatest(s, calls[..n], k);
      }
    }
  }

  /** After any run from an empty store, `get` returns the latest write of that key, unexpired, or nothing. */
  lemma GetReturnsLatest(s: Store, calls: seq<Call>, k: Key, now: real, v: Value)
    requires s.Valid() && s.data == map[]
    requires Step(Run(s, calls), Get(k), now).0 == Found(v)
    ensures k in Latest(s, calls) && Latest(s, calls)[k].value == v && now < Latest(s, calls)[k].expires
  {
    StoreRefinesLatest(s, calls, k);
  }

  // ---- LRU survival ----

  /** Keys an operation moves to the recent end. */
  function Touched(s: Store, op: Op, now: real): set<Key> {
    match op
    case Get(k) => if IsLive(s, k, now) then {k} else {}
    case Set(k, _, _) => {k}
    case Hit(k, _) => {k}
    case _ => {}
  }

  function TouchedIn(s: Store, calls: seq<Call>): set<Key> {
    if calls == [] then {}
    else
      var n := |calls| - 1;
      TouchedIn(s, calls[..n]) + Touched(Run(s, calls[..n]), calls[n].op, calls[n].at)
  }

  /** An operation that takes k away on purpose: a deletion, or a read that finds it expired. */
  predicate Removes(s: Store, op: Op, now: real, k: Key) {
    match op
    case Get(x) => x == k && !IsLive(s, k, now)
    case DropTracked(indexKey) => k in MembersOf(s, indexKey)
    case DeleteKeys(keys) => k in keys
    case _ => false
  }

  ghost predicate NeverRemoved(s: Store, calls: seq<Call>, k: Key) {
    forall i | 0 <= i < |calls| :: !Removes(Run(s, calls[..i]), calls[i].op, calls[i].at, k)
  }

  lemma DistinctBehind(order: seq<Key>, k: Key)
    requires Distinct(order) && k in order
    ensures Distinct(Behind(order, k))
    ensures |Elems(Behind(order, k))| == |Behind(order, k)|
  {
    var i := BehindSuffix(order, k);
    DistinctSize(Behind(order, k));
  }

  lemma {:induction false} BehindKeep(order: seq<Key>, k: Key, gone: set<Key>)
    requires k in order && k !in gone
    ensures k in Keep(order, gone)
    ensures Elems(Behind(Keep(order, gone), k)) <= Elems(Behind(order, k))
  {
    if order[0] == k {
      KeepFacts(order[1..], gone);
    } else {
      assert order == [order[0]] + order[1..];
      BehindKeep(order[1..], k, gone);
    }
  }

  ghost function Newer(s: Store, k: Key): set<Key> {
    Elems(Behind(s.order, k))
  }

  lemma ProbeSurvives(s: Store, x: Key, now: real, k: Key)
    requires s.Valid() && k in s.data && (x == k ==> IsLive(s, k, now))
    ensures k in Probe(s, x, now).data
    ensures Newer(Probe(s, x, now), k) <= Newer(s, k) + (if IsLive(s, x, now) then {x} - {k} else {})
  {
    assert k in s.order;
    if x == k {
      TouchFacts(s.order, k);
    } else if x in s.data {
      BehindTouch(s.order, k, x);
      BehindWithout(s.order, k, x);
      WithoutFacts(Behind(s.order, k), x);
    }
  }

  lemma PutSurvives(s: Store, x: Key, e: Entry, k: Key)
    requires s.Valid() && (k in s.data || x == k)
    requires x != k ==> |Newer(s, k) + {x}| < s.max
    requires s.max > 0
    ensures k in Put(s, x, e).data
    ensures Newer(Put(s, x, e), k) <= if x == k then {} else Newer(s, k) + {x}
    ensures x == k ==> Behind(Put(s, x, e).order, k) == []
  {
    var order := Touch(s.order, x);
    TouchFacts(s.order, x);
    if x != k {
      assert k in s.order;
      BehindTouch(s.order, k, x);
      DistinctBehind(order, k);
      SubsetSize(Elems(Behind(order, k)), Newer(s, k) + {x});
    }
    TrimKeeps(order, k, s.max);
    assert k in Trim(order, s.max);
  }

  lemma HitOwnSurvives(s: Store, window: nat, now: real, k: Key)
    requires s.Valid() && k in s.data && s.max > 0
    ensures k in HitStep(s, k, window, now).1.data
    ensures Newer(HitStep(s, k, window, now).1, k) <= Newer(s, k)
  {
    ProbeValid(s, k, now);
    var written := HitWrite(s, k, window, now);
    if written.Some? {
      PutSurvives(Probe(s, k, now), k, written.value, k);
    } else {
      ProbeSurvives(s, k, now, k);
    }
  }

  lemma HitOtherSurvives(s: Store, x: Key, window: nat, now: real, k: Key)
    requires s.Valid() && k in s.data && x != k && |Newer(s, k) + {x}| < s.max
    ensures k in HitStep(s, x, window, now).1.data
    ensures Newer(HitStep(s, x, window, now).1, k) <= Newer(s, k) + {x}
  {
    ProbeValid(s, x, now);
    ProbeSurvives(s, x, now, k);
    var written := HitWrite(s, x, window, now);
    if written.Some? {
      PutOverSurvives(s, Probe(s, x, now), x, written.value, k);
    }
  }

  lemma PutOverSurvives(s: Store, probed: Store, x: Key, e: Entry, k: Key)
    requires probed.Valid() && k in probed.data && x != k && |Newer(s, k) + {x}| < s.max == probed.max
    requires Newer(probed, k) <= Newer(s, k) + {x}
    ensures k in Put(probed, x, e).data
    ensures Newer(Put(probed, x, e), k) <= Newer(s, k) + {x}
  {
    SubsetSize(Newer(probed, k) + {x}, Newer(s, k) + {x});
    PutSurvives(probed, x, e, k);
  }

  lemma StepSurvives(s: Store, op: Op, now: real, k: Key)
    requires s.Valid() && k in s.data && !Removes(s, op, now, k)
    requires |Newer(s, k) + (Touched(s, op, now) - {k})| < s.max
    ensures k in Step(s, op, now).1.data
    ensures Newer(Step(s, op, now).1, k) <= Newer(s, k) + (Touched(s, op, now) - {k})
  {
    assert k in s.order;
    match op
    case Get(x) => ProbeSurvives(s, x, now, k);
    case Set(x, text, ttl) =>
      if x != k {
        assert Touched(s, op, now) - {k} == {x};
      }
      PutSurvives(s, x, Entry(Text(text), now + Max(ttl, 1) as real), k);
    case Hit(x, window) =>
      if x == k {
        HitOwnSurvives(s, window, now, k);
      } else {
        assert Touched(s, op, now) - {k} == {x};
        HitOtherSurvives(s, x, window, now, k);
      }
    case Track(_, _) =>
    case DropTracked(indexKey) => BehindKeep(s.order, k, MembersOf(s, indexKey));
    case DeleteKeys(keys) => BehindKeep(s.order, k, keys);
  }

  lemma {:induction false} RunSurvives(s: Store, calls: seq<Call>, k: Key)
    requires s.Valid() && k in s.data && NeverRemoved(s, calls, k)
    requires |Newer(s, k) + (TouchedIn(s, calls) - {k})| < s.max
    ensures k in Run(s, calls).data
    ensures Newer(Run(s, calls), k) <= Newer(s, k) + (TouchedIn(s, calls) - {k})
  {
    if calls != [] {
      var n := |calls| - 1;
      var front, last := calls[..n], calls[n];
      forall i | 0 <= i < |front|
        ensures !Removes(Run(s, front[..i]), front[i].op, front[i].at, k)
      {
        assert front[..i] == calls[..i];
      }
      var all := Newer(s, k) + (TouchedIn(s, calls) - {k});
      SubsetSize(Newer(s, k) + (TouchedIn(s, front) - {k}), all);
      RunSurvives(s, front, k);
      RunValid(s, front);
      var before := Run(s, front);
      SubsetSize(Newer(before, k) + (Touched(before, last.op, last.at) - {k}), all);
      StepSurvives(before, last.op, last.at, k);
    }
  }

  /** A key just touched stays until at least `max` distinct other keys have been touched. */
  lemma LruSurvival(s: Store, calls: seq<Call>, k: Key)
    requires s.Valid() && k in s.data && Behind(s.order, k) == []
    requires NeverRemoved(s, calls, k)
    requires |TouchedIn(s, calls) - {k}| < s.max
    ensures k in Run(s, calls).data
  {
    assert Newer(s, k) + (TouchedIn(s, calls) - {k}) == TouchedIn(s, calls) - {k};
    RunSurvives(s, calls, k);
  }

  /** No operation of the run writes the key. */
  ghost predicate Unwritten(calls: seq<Call>, k: Key) {
    forall i | 0 <= i < |calls| ::
      !(calls[i].op.Set? && calls[i].op.key == k) && !(calls[i].op.Hit? && calls[i].op.key == k)
  }

  /** A `set` followed by fewer than `max` other touches is still readable until it expires. */
  lemma SetThenGet(s: Store, k: Key, text: string, ttl: int, t0: real, written: Store, calls: seq<Call>, now: real)
    requires s.Valid() && s.max > 0 && written == Step(s, Set(k, text, ttl), t0).1
    requires NeverRemoved(written, calls, k) && Unwritten(calls, k) && |TouchedIn(written, calls) - {k}| < written.max
    requires now < t0 + Max(ttl, 1) as real
    ensures Step(Run(written, calls), Get(k), now).0 == Found(Text(text))
  {
    var e := Entry(Text(text), t0 + Max(ttl, 1) as real);
    PutValid(s, k, e);
    PutSurvives(s, k, e, k);
    EntryLasts(written, calls, k, e);
  }

  lemma EntryLasts(written: Store, calls: seq<Call>, k: Key, e: Entry)
    requires written.Valid() && k in written.data && written.data[k] == e && Behind(written.order, k) == []
    requires NeverRemoved(written, calls, k) && Unwritten(calls, k) && |TouchedIn(written, calls) - {k}| < written.max
    ensures k in Run(written, calls).data && Run(written, calls).data[k] == e
  {
    LruSurvival(written, calls, k);
    Untouched(written, calls, k);
  }

  /** Without a write to it, a surviving key keeps its entry. */
  lemma {:induction false} Untouched(s: Store, calls: seq<Call>, k: Key)
    requires s.Valid() && k in Run(s, calls).data && Unwritten(calls, k)
    ensures k in s.data && Run(s, calls).data[k] == s.data[k]
  {
    if calls != [] {
      var n := |calls| - 1;
      RunValid(s, calls[..n]);
      StepWrites(Run(s, calls[..n]), calls[n].op, calls[n].at, k);
      Untouched(s, calls[..n], k);
    }
  }

  /** Dropping an index removes every key it tracked, and the index itself; every other entry stays. */
  lemma DropTrackedRemovesAll(s: Store, indexKey: Key, now: real)
    requires s.Valid()
    ensures var t := Step(s, DropTracked(indexKey), now).1;
            && (forall k | k in MembersOf(s, indexKey) :: k !in t.data)
            && (forall k | k in s.data && k !in MembersOf(s, indexKey) :: k in t.data && t.data[k] == s.data[k])
            && indexKey !in t.index
  {}
}
