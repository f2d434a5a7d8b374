/** The bounded in-process store with expiry (cache.py, `MemoryStore`): specification, class, and run-level theorems. */
module StoreSpec {
  import opened Basics
  import opened LruOrder

  /** Stored text: arbitrary, or the decimal counter that `hit` writes and parses back. */
  datatype Value = Text(text: string) | Counter(count: int)

  datatype Entry = Entry(value: Value, expires: real)

  datatype Store = Store(data: map<Key, Entry>, order: seq<Key>, index: map<Key, set<Key>>, max: nat) {
    ghost predicate Valid() {
      && Distinct(order)
      && Elems(order) == data.Keys
      && |order| <= max
    }
  }

  predicate IsLive(s: Store, k: Key, now: real) {
    k in s.data && now < s.data[k].expires
  }

  function Drop(s: Store, k: Key): Store {
    s.(data := s.data - {k}, order := Without(s.order, k))
  }

  /** An expired item is deleted, a live one becomes the most recent. */
  function Probe(s: Store, k: Key, now: real): Store {
    if k !in s.data then s
    else if s.data[k].expires <= now then Drop(s, k)
    else s.(order := Touch(s.order, k))
  }

  /** Store as most recent, then evict the least recent until the bound holds. */
  function Put(s: Store, k: Key, e: Entry): Store {
    var order := Trim(Touch(s.order, k), s.max);
    s.(data := Restrict(s.data[k := e], order), order := order)
  }

  /** The entries whose keys are still in the order. */
  function Restrict(all: map<Key, Entry>, order: seq<Key>): map<Key, Entry> {
    map x | x in order && x in all :: all[x]
  }

  /** Remove a set of keys, keeping the order of the rest. */
  function Discard(s: Store, ks: set<Key>): Store {
    s.(data := s.data - ks, order := Keep(s.order, ks))
  }

  function Keep(order: seq<Key>, gone: set<Key>): seq<Key> {
    if order == [] then []
    else if order[0] in gone then Keep(order[1..], gone)
    else [order[0]] + Keep(order[1..], gone)
  }

  datatype Op =
    | Get(key: Key)
    | Set(key: Key, text: string, ttl: int)
    | Hit(key: Key, window: nat)
    | Track(indexKey: Key, member: Key)
    | DropTracked(indexKey: Key)
    | DeleteKeys(keys: set<Key>)

  datatype Result = Nothing | Found(value: Value) | Hits(count: int, left: int) | NotANumber

  function MembersOf(s: Store, indexKey: Key): set<Key> {
    if indexKey in s.index then s.index[indexKey] else {}
  }

  /** What `hit` stores: one more in the open window, or the first of a new one; text is not a number. */
  function HitWrite(s: Store, k: Key, window: nat, now: real): (r: Option<Entry>)
    ensures r.Some? ==> r.value.value.Counter?
  {
    if !IsLive(s, k, now) then Some(Entry(Counter(1), now + window as real))
    else if s.data[k].value.Text? then None
    else Some(Entry(Counter(s.data[k].value.count + 1), s.data[k].expires))
  }

  function HitStep(s: Store, k: Key, window: nat, now: real): (Result, Store) {
    match HitWrite(s, k, window, now)
    case None => (NotANumber, Probe(s, k, now))
    case Some(e) => (Hits(e.value.count, Max((e.expires - now).Floor, 1)), Put(Probe(s, k, now), k, e))
  }

  /** One operation at one clock reading. */
  function Step(s: Store, op: Op, now: real): (Result, Store) {
    match op
    case Get(k) => (if IsLive(s, k, now) then Found(s.data[k].value) else Nothing, Probe(s, k, now))
    case Set(k, text, ttl) => (Nothing, Put(s, k, Entry(Text(text), now + Max(ttl, 1) as real)))
    case Hit(k, window) => HitStep(s, k, window, now)
    case Track(indexKey, member) => (Nothing, s.(index := s.index[indexKey := MembersOf(s, indexKey) + {member}]))
    case DropTracked(indexKey) => (Nothing, Discard(s, MembersOf(s, indexKey)).(index := s.index - {indexKey}))
    case DeleteKeys(keys) => (Nothing, Discard(s, keys))
  }

  // ---- Validity ----

  lemma {:induction false} KeepFacts(order: seq<Key>, gone: set<Key>)
    ensures Elems(Keep(order, gone)) == Elems(order) - gone
    ensures Distinct(order) ==> Distinct(Keep(order, gone))
    ensures |Keep(order, gone)| <= |order|
  {
    if order != [] {
      KeepFacts(order[1..], gone);
      assert Elems(order) == {order[0]} + Elems(order[1..]);
      if order[0] !in gone {
        assert Elems(Keep(order, gone)) == {order[0]} + Elems(Keep(order[1..], gone));
        if Distinct(order) {
          assert Distinct(order[1..]);
          assert order[0] !in Elems(order[1..]);
          assert order[0] !in Elems(Keep(order[1..], gone));
          ConsDistinct(order[0], Keep(order[1..], gone));
        }
      } else if Distinct(order) {
        assert Distinct(order[1..]);
      }
    }
  }

  lemma ProbeValid(s: Store, k: Key, now: real)
    requires s.Valid()
    ensures Probe(s, k, now).Valid()
  {
    WithoutFacts(s.order, k);
    TouchFacts(s.order, k);
    assert k in s.order <==> k in s.data;
  }

  lemma PutValid(s: Store, k: Key, e: Entry)
    requires s.Valid()
    ensures Put(s, k, e).Valid()
    ensures forall x | x in Put(s, k, e).data :: Put(s, k, e).data[x] == if x == k then e else s.data[x]
    ensures s.max > 0 ==> k in Put(s, k, e).data
  {
    PutOrder(s, k);
    RestrictKeys(s.data[k := e], Trim(Touch(s.order, k), s.max));
  }

  lemma PutOrder(s: Store, k: Key)
    requires s.Valid()
    ensures var o := Trim(Touch(s.order, k), s.max);
            Distinct(o) && Elems(o) <= s.data.Keys + {k} && (s.max > 0 ==> k in o)
  {
    TouchFacts(s.order, k);
    TrimFacts(Touch(s.order, k), s.max);
    TrimKeeps(Touch(s.order, k), k, s.max);
  }

  lemma RestrictKeys(all: map<Key, Entry>, order: seq<Key>)
    requires Elems(order) <= all.Keys
    ensures Restrict(all, order).Keys == Elems(order)
  {
    assert forall x :: x in order <==> x in Elems(order);
  }

  lemma DiscardValid(s: Store, ks: set<Key>)
    requires s.Valid()
    ensures Discard(s, ks).Valid()
  {
    KeepFacts(s.order, ks);
  }

  lemma HitValid(s: Store, k: Key, window: nat, now: real)
    requires s.Valid()
    ensures HitStep(s, k, window, now).1.Valid() && HitStep(s, k, window, now).1.max == s.max
  {
    ProbeValid(s, k, now);
    var written := HitWrite(s, k, window, now);
    if written.Some? {
      PutValid(Probe(s, k, now), k, written.value);
    }
  }

  lemma ValidSize(s: Store)
    requires s.Valid()
    ensures |s.data| <= s.max
  {
    DistinctSize(s.order);
  }

  /** Every operation keeps the store consistent and within its bound. */
  lemma StepValid(s: Store, op: Op, now: real)
    requires s.Valid()
    ensures Step(s, op, now).1.Valid() && Step(s, op, now).1.max == s.max
    ensures |Step(s, op, now).1.data| <= s.max
  {
    StepKeeps(s, op, now);
    ValidSize(Step(s, op, now).1);
  }

  lemma StepKeeps(s: Store, op: Op, now: real)
    requires s.Valid()
    ensures Step(s, op, now).1.Valid() && Step(s, op, now).1.max == s.max
  {
    match op
    case Get(k) => ProbeValid(s, k, now);
    case Set(k, text, ttl) => PutValid(s, k, Entry(Text(text), now + Max(ttl, 1) as real));
    case Hit(k, window) => HitValid(s, k, window, now);
    case Track(_, _) =>
    case DropTracked(indexKey) => DiscardValid(s, MembersOf(s, indexKey));
    case DeleteKeys(keys) => DiscardValid(s, keys);
  }
}
