/** The in-process key-value store object (cache.py, `MemoryStore`), one clock reading per operation. */
module CacheStore {
  import opened Basics
  import opened LruOrder
  import opened StoreSpec

  class MemoryStore {
    const maxEntries: nat
    var data: map<Key, Entry>
    var order: seq<Key>
    var sets: map<Key, set<Key>>

    ghost function State(): Store
      reads this
    {
      Store(data, order, sets, maxEntries)
    }

    ghost predicate Valid()
      reads this
    {
      State().Valid()
    }

    constructor (maxEntries: nat)
      ensures Valid() && State() == Store(map[], [], map[], maxEntries)
    {
      this.maxEntries := maxEntries;
      data, order, sets := map[], [], map[];
    }

    method Live(k: Key, now: real) returns (item: Option<Entry>)
      requires Valid()
      modifies this`data, this`order
      ensures State() == Probe(old(State()), k, now) && Valid()
      ensures item == if IsLive(old(State()), k, now) then Some(old(data)[k]) else None
    {
      ProbeValid(State(), k, now);
      if k !in data {
        return None;
      }
      if data[k].expires <= now {
        data := data - {k};
        order := Without(order, k);
        return None;
      }
      item := Some(data[k]);
      order := Touch(order, k);
    }

    /** Drop the least recent entries until the bound holds. */
    method Evict()
      requires Distinct(order) && Elems(order) == data.Keys
      modifies this`data, this`order
      ensures order == Trim(old(order), maxEntries)
      ensures data == Restrict(old(data), order)
    {
      RestrictAll(data, order);
      ghost var d := 0;
      while |order| > maxEntries
        invariant d <= |old(order)| && order == old(order)[d..] && |order| >= Min(|old(order)|, maxEntries)
        invariant data == Restrict(old(data), order)
        decreases |order|
      {
        RestrictStep(old(data), old(order), d);
        data := data - {order[0]};
        order := order[1..];
        d := d + 1;
      }
    }

    method PutEntry(k: Key, e: Entry)
      requires Valid()
      modifies this`data, this`order
      ensures State() == Put(old(State()), k, e) && Valid()
    {
      data := data[k := e];
      order := Touch(order, k);
      assert Distinct(order) && Elems(order) == data.Keys by {
        TouchFacts(old(order), k);
      }
      Evict();
      assert State() == Put(old(State()), k, e);
      PutValid(old(State()), k, e);
    }

    method Get(k: Key, now: real) returns (r: Result)
      requires Valid()
      modifies this`data, this`order
      ensures (r, State()) == Step(old(State()), Op.Get(k), now) && Valid()
    {
      var item := Live(k, now);
      r := match item case None => Nothing case Some(e) => Found(e.value);
    }

    method Set(k: Key, text: string, ttl: int, now: real)
      requires Valid()
      modifies this`data, this`order
      ensures State() == Step(old(State()), Op.Set(k, text, ttl), now).1 && Valid()
    {
      PutEntry(k, Entry(Text(text), now + Max(ttl, 1) as real));
    }

    method Hit(k: Key, window: nat, now: real) returns (r: Result)
      requires Valid()
      modifies this`data, this`order
      ensures (r, State()) == Step(old(State()), Op.Hit(k, window), now) && Valid()
    {
      var item := Live(k, now);
      var count, expires := 1, now + window as real;
      if item.Some? {
        if item.value.value.Text? {
          return NotANumber;
        }
        count, expires := item.value.value.count + 1, item.value.expires;
      }
      assert HitWrite(old(State()), k, window, now) == Some(Entry(Counter(count), expires));
      PutEntry(k, Entry(Counter(count), expires));
      r := Hits(count, Max((expires - now).Floor, 1));
    }

    method Track(indexKey: Key, member: Key)
      modifies this`sets
      ensures State() == Step(old(State()), Op.Track(indexKey, member), 0.0).1
    {
      var members: set<Key> := if indexKey in sets then sets[indexKey] else {};
      sets := sets[indexKey := members + {member}];
    }

    /** Forget every tracked key, then the index itself. */
    method DropTracked(indexKey: Key)
      requires Valid()
      modifies this
      ensures State() == Step(old(State()), Op.DropTracked(indexKey), 0.0).1 && Valid()
    {
      var members: set<Key> := if indexKey in sets then sets[indexKey] else {};
      DiscardValid(State(), members);
      sets := sets - {indexKey};
      Remove(members);
    }

    method DeletePrefix(matches: Key -> bool)
      requires Valid()
      modifies this`data, this`order
      ensures State() == Step(old(State()), Op.DeleteKeys(set k | k in old(data) && matches(k)), 0.0).1 && Valid()
    {
      var keys := set k | k in data && matches(k);
      Remove(keys);
    }

    /** Drop the entries of a set of keys, one after the other; a missing key is no error. */
    method Remove(keys: set<Key>)
      requires Valid()
      modifies this`data, this`order
      ensures data == Discard(old(State()), keys).data && order == Discard(old(State()), keys).order
      ensures Valid()
    {
      DiscardValid(State(), keys);
      var left := keys;
      ghost var all, full := data, order;
      KeepNone(full);
      assert keys - keys == {};
      while left != {}
        invariant left <= keys
        invariant data == all - (keys - left) && order == Keep(full, keys - left)
        decreases |left|
      {
        var k := Pick(left);
        DiscardOne(all, full, keys, left, k);
        left := left - {k};
        data := data - {k};
        order := Without(order, k);
      }
      assert keys - {} == keys;
    }

    method Pick(s: set<Key>) returns (x: Key)
      requires s != {}
      ensures x in s
    {
      ghost var y := Basics.Pick(s);
      x :| x in s;
    }

    method Close()
      modifies this
      ensures State() == Store(map[], [], map[], maxEntries) && Valid()
    {
      data, order, sets := map[], [], map[];
    }
  }

  lemma RestrictAll(all: map<Key, Entry>, full: seq<Key>)
    requires Elems(full) == all.Keys
    ensures Restrict(all, full) == all
  {
    assert forall x :: x in full <==> x in Elems(full);
  }

  /** Popping the oldest key removes exactly its entry. */
  lemma RestrictStep(all: map<Key, Entry>, full: seq<Key>, d: nat)
    requires Distinct(full) && d < |full|
    ensures full[d..][0] == full[d] && full[d..][1..] == full[d + 1..]
    ensures Restrict(all, full[d..]) - {full[d]} == Restrict(all, full[d + 1..])
  {
    assert full[d..] == [full[d]] + full[d + 1..];
    assert full[d] !in full[d + 1..];
  }

  lemma DiscardOne(all: map<Key, Entry>, full: seq<Key>, keys: set<Key>, left: set<Key>, k: Key)
    requires left <= keys && k in left
    ensures all - (keys - left) - {k} == all - (keys - (left - {k}))
    ensures Without(Keep(full, keys - left), k) == Keep(full, keys - (left - {k}))
  {
    KeepWithout(full, keys - left, k);
    assert keys - left + {k} == keys - (left - {k});
  }

  lemma {:induction false} KeepNone(order: seq<Key>)
    ensures Keep(order, {}) == order
  {
    if order != [] {
      KeepNone(order[1..]);
    }
  }

  lemma {:induction false} KeepWithout(order: seq<Key>, gone: set<Key>, k: Key)
    ensures Keep(order, gone + {k}) == Without(Keep(order, gone), k)
  {
    if order != [] {
      KeepWithout(order[1..], gone, k);
      if order[0] !in gone {
        assert ([order[0]] + Keep(order[1..], gone))[1..] == Keep(order[1..], gone);
      }
    }
  }
}
