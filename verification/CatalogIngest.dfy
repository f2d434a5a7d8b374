/** The batch loop of the catalog ingest with savepoints, one reconnect per batch and row caches
    (catalog_ingest.py). Which exceptions are thrown is a schedule fixed in advance; `current` is what the open
    transaction sees. */
module CatalogIngest {
  import opened Basics
  import opened ConnectionLost

  datatype RefKind = Genre | Person | Keyword

  /** A genre, person or keyword row; its id is its place in the table. */
  datatype RefRow = RefRow(kind: RefKind, name: string, external: Option<int>)

  datatype Ref = Ref(kind: RefKind, external: int, name: string)

  datatype Db = Db(titles: set<int>, refs: seq<RefRow>)

  type Cache = map<(RefKind, int), nat>

  datatype Payload = Payload(id: int, refs: seq<Ref>)

  /** A caught exception: a node of an exception graph. */
  datatype Caught = Caught(graph: Graph, root: nat)

  type Failure = e: Caught | Closed(e.graph) && e.root < |e.graph|
    witness Caught([Exc(false, false, false, false, "", None, None, None)], 0)

  /** The walk over its causes calls it a lost connection. */
  ghost predicate IsLoss(e: Failure) {
    EarlyLost(e.graph[e.root]) || LossReachable(e.graph, e.root)
  }

  /** What goes wrong while one title is written, after how many lookups. */
  datatype Fault = NoFault | Throws(after: nat, failure: Failure)

  /** How a batch commit ends; a commit that lost its connection may or may not have been applied. */
  datatype CommitFault = CommitOk | CommitThrows(failure: Failure, applied: bool)

  /** The commit went through although its acknowledgement was lost. */
  ghost predicate Unheard(commit: CommitFault) {
    commit.CommitThrows? && IsLoss(commit.failure) && commit.applied
  }

  /** One attempt at a batch. */
  datatype Attempt = Attempt(fault: nat -> Fault, commit: CommitFault)

  datatype Status = Created | Updated | Failed

  // ---- Lookups on values ----

  function FindExternal(refs: seq<RefRow>, kind: RefKind, external: int): (r: Option<nat>)
    ensures r.Some? ==> r.value < |refs| && refs[r.value].kind == kind && refs[r.value].external == Some(external)
    ensures r.None? ==> forall i | 0 <= i < |refs| :: !(refs[i].kind == kind && refs[i].external == Some(external))
  {
    if refs == [] then None
    else
      var last := |refs| - 1;
      var r := FindExternal(refs[..last], kind, external);
      if r.Some? then r
      else if refs[last].kind == kind && refs[last].external == Some(external) then Some(last)
      else None
  }

  function FindName(refs: seq<RefRow>, kind: RefKind, name: string): (r: Option<nat>)
    ensures r.Some? ==> r.value < |refs| && refs[r.value].kind == kind && refs[r.value].name == name
    ensures r.None? ==> forall i | 0 <= i < |refs| :: !(refs[i].kind == kind && refs[i].name == name)
  {
    if refs == [] then None
    else
      var last := |refs| - 1;
      var r := FindName(refs[..last], kind, name);
      if r.Some? then r
      else if refs[last].kind == kind && refs[last].name == name then Some(last)
      else None
  }

  /** Row found by SELECT: by TMDb id, then (not for people) by name. */
  function Select(refs: seq<RefRow>, ref: Ref): (r: Option<nat>)
    ensures r.Some? ==> r.value < |refs| && refs[r.value].kind == ref.kind
    ensures r.Some? ==>
              refs[r.value].external == Some(ref.external)
              || (ref.kind != Person && refs[r.value].name == ref.name)
  {
    var byId := FindExternal(refs, ref.kind, ref.external);
    if byId.Some? || ref.kind == Person then byId else FindName(refs, ref.kind, ref.name)
  }

  /** The table after a lookup: a missing row is inserted, a genre found by name adopts the TMDb id. */
  function RefsAfter(refs: seq<RefRow>, ref: Ref): (r: seq<RefRow>)
    ensures |refs| <= |r|
    ensures forall i | 0 <= i < |refs| :: r[i].kind == refs[i].kind && r[i].name == refs[i].name
    ensures forall i | 0 <= i < |refs| :: refs[i].external.Some? ==> r[i].external == refs[i].external
  {
    match Select(refs, ref)
    case None => refs + [RefRow(ref.kind, ref.name, Some(ref.external))]
    case Some(i) =>
      if ref.kind == Genre && refs[i].external.None? then refs[i := refs[i].(external := Some(ref.external))] else refs
  }

  // ---- Coherence ----

  /** Every cached row is visible in the transaction, is of the right table, and for a person is that very person. */
  ghost predicate Coherent(refs: seq<RefRow>, cache: Cache) {
    forall k | k in cache ::
      && cache[k] < |refs| && refs[cache[k]].kind == k.0
      && (k.0 == Person ==> refs[cache[k]].external == Some(k.1))
  }

  /** Rows that were there keep their table and name, and every row that was not is one of the references, complete. */
  ghost predicate Extends(before: seq<RefRow>, now: seq<RefRow>, refs: seq<Ref>) {
    && |before| <= |now|
    && (forall i | 0 <= i < |before| :: now[i].kind == before[i].kind && now[i].name == before[i].name)
    && (forall i | |before| <= i < |now| :: IsRowOfSome(now[i], refs))
  }

  ghost predicate IsRowOfSome(row: RefRow, refs: seq<Ref>) {
    exists j :: 0 <= j < |refs| && row == RefRow(refs[j].kind, refs[j].name, Some(refs[j].external))
  }

  lemma LookupExtends(before: seq<RefRow>, now: seq<RefRow>, refs: seq<Ref>, j: nat)
    requires Extends(before, now, refs) && j < |refs|
    ensures Extends(before, RefsAfter(now, refs[j]), refs)
  {
    var after := RefsAfter(now, refs[j]);
    forall i | |before| <= i < |after|
      ensures IsRowOfSome(after[i], refs)
    {
      if i < |now| {
        assert IsRowOfSome(now[i], refs);
        assert after[i] == now[i];
      }
    }
  }

  /** The first `n` references have been looked up, and what was cached before still is. */
  ghost predicate LookedUp(before: Cache, now: Cache, refs: seq<Ref>, n: nat)
    requires n <= |refs|
  {
    && (forall k | k in before :: k in now && now[k] == before[k])
    && (forall j | 0 <= j < n :: (refs[j].kind, refs[j].external) in now)
  }

  lemma LookedUpNext(before: Cache, now: Cache, refs: seq<Ref>, n: nat, row: nat)
    requires n < |refs| && LookedUp(before, now, refs, n)
    requires (refs[n].kind, refs[n].external) in now ==> now[(refs[n].kind, refs[n].external)] == row
    ensures LookedUp(before, now[(refs[n].kind, refs[n].external) := row], refs, n + 1)
  {}

  // ---- Specification of the batch loop ----

  datatype Tallies = Tallies(created: nat, updated: nat, failed: nat)

  datatype BatchEnd = Passed(counts: Tallies) | Lost | Broken

  datatype Outcome = Finished(counts: Tallies) | ConnectionLost(created: nat, updated: nat) | CommitFailed

  predicate Succeeds(batch: seq<Option<Payload>>, fault: nat -> Fault, i: nat)
    requires i < |batch|
  {
    batch[i].Some? && fault(i).NoFault?
  }

  ghost predicate DropsAt(batch: seq<Option<Payload>>, fault: nat -> Fault, i: nat)
    requires i < |batch|
  {
    batch[i].Some? && fault(i).Throws? && IsLoss(fault(i).failure)
  }

  /** Titles written by the first `n` targets. */
  function Upserted(batch: seq<Option<Payload>>, fault: nat -> Fault, n: nat): set<int>
    requires n <= |batch|
  {
    set i: nat | i < n && Succeeds(batch, fault, i) :: batch[i].value.id
  }

  lemma UpsertedNext(batch: seq<Option<Payload>>, fault: nat -> Fault, n: nat)
    requires n < |batch|
    ensures Upserted(batch, fault, n + 1)
            == Upserted(batch, fault, n) + if Succeeds(batch, fault, n) then {batch[n].value.id} else {}
  {
    var all := Upserted(batch, fault, n + 1);
    forall id | id in Upserted(batch, fault, n) + (if Succeeds(batch, fault, n) then {batch[n].value.id} else {})
      ensures id in all
    {
      if id in Upserted(batch, fault, n) {
        var i: nat :| i < n && Succeeds(batch, fault, i) && batch[i].value.id == id;
        assert i < n + 1 && Succeeds(batch, fault, i);
      } else {
        assert Succeeds(batch, fault, n);
      }
    }
  }

  /** Statuses of the first `n` targets: a title is created by the first target that finds it missing. */
  function Tally(titles: set<int>, batch: seq<Option<Payload>>, fault: nat -> Fault, n: nat): Tallies
    requires n <= |batch|
  {
    if n == 0 then Tallies(0, 0, 0)
    else
      var t := Tally(titles, batch, fault, n - 1);
      if !Succeeds(batch, fault, n - 1) then t.(failed := t.failed + 1)
      else if batch[n - 1].value.id in titles + Upserted(batch, fault, n - 1) then t.(updated := t.updated + 1)
      else t.(created := t.created + 1)
  }

  ghost predicate DropsMidway(batch: seq<Option<Payload>>, fault: nat -> Fault) {
    exists i: nat | i < |batch| :: DropsAt(batch, fault, i)
  }

  ghost function EndOf(titles: set<int>, batch: seq<Option<Payload>>, attempt: Attempt): BatchEnd {
    if DropsMidway(batch, attempt.fault) then Lost
    else match attempt.commit
      case CommitOk => Passed(Tally(titles, batch, attempt.fault, |batch|))
      case CommitThrows(failure, _) => if IsLoss(failure) then Lost else Broken
  }

  /** Committed titles after an attempt: all of its writes or none. */
  ghost function TitlesAfter(titles: set<int>, batch: seq<Option<Payload>>, attempt: Attempt): set<int> {
    if !DropsMidway(batch, attempt.fault) && (attempt.commit.CommitOk? || Unheard(attempt.commit))
    then titles + Upserted(batch, attempt.fault, |batch|)
    else titles
  }

  ghost function BatchWithRetry(titles: set<int>, batch: seq<Option<Payload>>,
                                tries: (Attempt, Attempt)): (BatchEnd, set<int>) {
    var stored := TitlesAfter(titles, batch, tries.0);
    if EndOf(titles, batch, tries.0).Lost?
    then (EndOf(stored, batch, tries.1), TitlesAfter(stored, batch, tries.1))
    else (EndOf(titles, batch, tries.0), stored)
  }

  function Add(a: Tallies, b: Tallies): Tallies {
    Tallies(a.created + b.created, a.updated + b.updated, a.failed + b.failed)
  }

  /** Outcome and committed titles once the batches of `rest`, the next being batch `b`, are through. */
  ghost function Ingest(
    counts: Tallies, titles: set<int>, rest: seq<Option<Payload>>, tries: nat -> (Attempt, Attempt), b: nat, size: nat)
    : (Outcome, set<int>)
    requires size > 0
    decreases |rest|
  {
    if rest == [] then (Finished(counts), titles)
    else
      var k := Min(size, |rest|);
      var (end, stored) := BatchWithRetry(titles, rest[..k], tries(b));
      match end
      case Lost => (ConnectionLost(counts.created, counts.updated), stored)
      case Broken => (CommitFailed, stored)
      case Passed(more) => Ingest(Add(counts, more), stored, rest[k..], tries, b + 1, size)
  }

  lemma IngestStep(
    counts: Tallies, titles: set<int>, rest: seq<Option<Payload>>, tries: nat -> (Attempt, Attempt), b: nat, size: nat,
    batch: seq<Option<Payload>>, later: seq<Option<Payload>>)
    requires size > 0 && rest != [] && rest == batch + later && |batch| == Min(size, |rest|)
    ensures var (end, stored) := BatchWithRetry(titles, batch, tries(b));
            Ingest(counts, titles, rest, tries, b, size)
            == match end
               case Lost => (ConnectionLost(counts.created, counts.updated), stored)
               case Broken => (CommitFailed, stored)
               case Passed(more) => Ingest(Add(counts, more), stored, later, tries, b + 1, size)
  {
    assert rest[..|batch|] == batch && rest[|batch|..] == later;
  }

  /** New titles stored by first attempts whose commit was applied but never acknowledged. */
  ghost function Unacknowledged(
    titles: set<int>, rest: seq<Option<Payload>>, tries: nat -> (Attempt, Attempt), b: nat, size: nat): nat
    requires size > 0
    decreases |rest|
  {
    if rest == [] then 0
    else
      var k := Min(size, |rest|);
      var first := TitlesAfter(titles, rest[..k], tries(b).0);
      var (end, stored) := BatchWithRetry(titles, rest[..k], tries(b));
      (if EndOf(titles, rest[..k], tries(b).0).Lost? then |first - titles| else 0)
      + Unacknowledged(stored, rest[k..], tries, b + 1, size)
  }

  class IngestService {
    var committed: Db
    var current: Db
    var cache: Cache
    const batchSize: nat

    constructor (db: Db, batchSize: int)
      ensures committed == current == db && cache == map[] && Coherent(current.refs, cache)
      ensures this.batchSize == Max(1, batchSize)
    {
      committed, current, cache := db, db, map[];
      this.batchSize := Max(1, batchSize);
    }

    /** The row a title is linked to is always visible in the current transaction. */
    method GetOrCreate(ref: Ref) returns (row: nat)
      requires Coherent(current.refs, cache)
      modifies this`current, this`cache
      ensures Coherent(current.refs, cache)
      ensures row < |current.refs| && current.refs[row].kind == ref.kind
      ensures ref.kind == Person ==> current.refs[row].external == Some(ref.external)
      ensures cache == old(cache)[(ref.kind, ref.external) := row]
      ensures (ref.kind, ref.external) in old(cache)
              ==> current == old(current) && row == old(cache)[(ref.kind, ref.external)]
      ensures (ref.kind, ref.external) !in old(cache) ==>
                current == old(current).(refs := RefsAfter(old(current).refs, ref))
                && row == (match Select(old(current).refs, ref) case None => |old(current).refs| case Some(i) => i)
    {
      var key := (ref.kind, ref.external);
      if key in cache {
        return cache[key];
      }
      var found := Select(current.refs, ref);
      if found.None? {
        row := |current.refs|;
      } else {
        row := found.value;
      }
      current := current.(refs := RefsAfter(current.refs, ref));
      cache := cache[key := row];
    }

    /** One more reference of a title; `before` and `cached` are what there was when its references began. */
    method LookUpNext(ghost before: seq<RefRow>, ghost cached: Cache, refs: seq<Ref>, n: nat)
      requires Coherent(current.refs, cache) && n < |refs|
      requires Extends(before, current.refs, refs) && LookedUp(cached, cache, refs, n)
      modifies this`current, this`cache
      ensures Coherent(current.refs, cache) && current.titles == old(current).titles
      ensures Extends(before, current.refs, refs) && LookedUp(cached, cache, refs, n + 1)
    {
      LookupExtends(before, current.refs, refs, n);
      ghost var earlier := cache;
      var row := GetOrCreate(refs[n]);
      LookedUpNext(cached, earlier, refs, n, row);
    }

    /** Insert or update the title, then look its references up; a fault interrupts after `after` lookups. */
    method UpsertFromDetail(p: Payload, fault: Fault) returns (status: Status, raised: bool)
      requires Coherent(current.refs, cache)
      modifies this`current, this`cache
      ensures raised <==> !fault.NoFault?
      ensures current.titles == old(current).titles + {p.id}
      ensures Extends(old(current).refs, current.refs, p.refs)
      ensures LookedUp(old(cache), cache, p.refs, if fault.NoFault? then |p.refs| else Min(fault.after, |p.refs|))
      ensures status == if p.id in old(current).titles then Updated else Created
      ensures Coherent(current.refs, cache)
    {
      status := if p.id in current.titles then Updated else Created;
      current := current.(titles := current.titles + {p.id});
      var upto := if fault.NoFault? then |p.refs| else Min(fault.after, |p.refs|);
      for i := 0 to upto
        invariant current.titles == old(current).titles + {p.id}
        invariant Extends(old(current).refs, current.refs, p.refs)
        invariant LookedUp(old(cache), cache, p.refs, i)
        invariant Coherent(current.refs, cache)
      {
        LookUpNext(old(current).refs, old(cache), p.refs, i);
      }
      raised := !fault.NoFault?;
    }

    method ForgetCachedRows()
      modifies this`cache
      ensures cache == map[]
    {
      cache := map[];
    }

    /** Roll back and drop every row cached from the transaction that is gone. */
    method ResetSession()
      modifies this`current, this`cache
      ensures current == committed && Coherent(current.refs, cache)
    {
      current := committed;
      ForgetCachedRows();
    }

    /** One batch against its specification. After `Passed` the caches are coherent with the open transaction. */
    method WriteBatch(batch: seq<Option<Payload>>, attempt: Attempt) returns (end: BatchEnd)
      requires Coherent(current.refs, cache) && current == committed
      modifies this`committed, this`current, this`cache
      ensures end == EndOf(old(committed).titles, batch, attempt)
      ensures committed.titles == TitlesAfter(old(committed).titles, batch, attempt)
      ensures current == committed
      ensures end.Passed? ==> Coherent(current.refs, cache)
      ensures !end.Passed? && !Unheard(attempt.commit) ==> committed == old(committed)
    {
      ghost var titles := committed.titles;
      var created, updated, failed := 0, 0, 0;
      for n := 0 to |batch|
        invariant Coherent(current.refs, cache) && committed == old(committed)
        invariant current.titles == titles + Upserted(batch, attempt.fault, n)
        invariant Tallies(created, updated, failed) == Tally(titles, batch, attempt.fault, n)
        invariant forall i | 0 <= i < n :: !DropsAt(batch, attempt.fault, i)
      {
        UpsertedNext(batch, attempt.fault, n);
        if batch[n].None? {
          failed := failed + 1;
          continue;
        }
        var savepoint := current;
        var status, raised := UpsertFromDetail(batch[n].value, attempt.fault(n));
        if raised {
          var failure := attempt.fault(n).failure;
          var dropped := ConnectionIsLost(failure.graph, failure.root);
          if dropped {
            assert DropsAt(batch, attempt.fault, n);
            current := committed;
            return Lost;
          }
          current := savepoint;
          ForgetCachedRows();
          failed := failed + 1;
          continue;
        }
        created := created + if status == Created then 1 else 0;
        updated := updated + if status == Updated then 1 else 0;
      }
      if attempt.commit.CommitOk? {
        committed := current;
        return Passed(Tallies(created, updated, failed));
      }
      var failure := attempt.commit.failure;
      var dropped := ConnectionIsLost(failure.graph, failure.root);
      if dropped && attempt.commit.applied {
        committed := current;
      }
      current := committed;
      end := if dropped then Lost else Broken;
    }

    /** One retry after a reset session, because the usual lost connection comes back. */
    method WriteOrRedo(batch: seq<Option<Payload>>, tries: (Attempt, Attempt)) returns (end: BatchEnd)
      requires Coherent(current.refs, cache) && current == committed
      modifies this`committed, this`current, this`cache
      ensures (end, committed.titles) == BatchWithRetry(old(committed).titles, batch, tries)
      ensures end.Passed? ==> Coherent(current.refs, cache) && current == committed
    {
      end := WriteBatch(batch, tries.0);
      if end.Lost? {
        ResetSession();
        end := WriteBatch(batch, tries.1);
      }
    }

    /** The batch loop: `fetched` holds what fetching each target gave, `tries(b)` the two attempts of batch `b`. */
    method IngestIds(fetched: seq<Option<Payload>>, tries: nat -> (Attempt, Attempt)) returns (result: Outcome)
      requires Coherent(current.refs, cache) && current == committed && batchSize > 0
      modifies this`committed, this`current, this`cache
      ensures (result, committed.titles)
              == Ingest(Tallies(0, 0, 0), old(committed).titles, fetched, tries, 0, batchSize)
      ensures result.Finished? ==> Coherent(current.refs, cache) && current == committed
    {
      var done := Tallies(0, 0, 0);
      var start: nat, b: nat := 0, 0;
      ghost var expected := Ingest(done, committed.titles, fetched, tries, 0, batchSize);
      assert fetched[0..] == fetched;
      while start < |fetched|
        invariant start <= |fetched|
        invariant Coherent(current.refs, cache) && current == committed
        invariant expected == Ingest(done, committed.titles, fetched[start..], tries, b, batchSize)
      {
        var next := Min(start + batchSize, |fetched|);
        IngestStep(done, committed.titles, fetched[start..], tries, b, batchSize, fetched[start..next],
            fetched[next..]);
        var end := WriteOrRedo(fetched[start..next], tries(b));
        match end
        case Lost => return ConnectionLost(done.created, done.updated);
        case Broken => return CommitFailed;
        case Passed(counts) => done := Add(done, counts);
        start, b := next, b + 1;
      }
      result := Finished(done);
    }
  }

  // ---- What the loop promises ----

  /** Each target of a batch is counted once, and exactly the absent and the malformed ones as failed. */
  lemma {:induction false} TallyCountsEach(titles: set<int>, batch: seq<Option<Payload>>, fault: nat -> Fault, n: nat)
    requires n <= |batch|
    ensures var t := Tally(titles, batch, fault, n); t.created + t.updated + t.failed == n
    ensures Tally(titles, batch, fault, n).failed == |set i: nat | i < n && !Succeeds(batch, fault, i)|
  {
    var failing := set i: nat | i < n && !Succeeds(batch, fault, i);
    if n == 0 {
      assert failing == {};
    } else {
      TallyCountsEach(titles, batch, fault, n - 1);
      var before := set i: nat | i < n - 1 && !Succeeds(batch, fault, i);
      assert failing == if Succeeds(batch, fault, n - 1) then before else before + {n - 1};
    }
  }

  lemma GrowthByOne(base: set<int>, id: int)
    ensures |base + {id}| == |base| + if id in base then 0 else 1
  {
    if id in base {
      assert base + {id} == base;
    }
  }

  lemma GrowthStep(titles: set<int>, batch: seq<Option<Payload>>, fault: nat -> Fault, n: nat)
    requires n < |batch|
    ensures |titles + Upserted(batch, fault, n + 1)| - |titles + Upserted(batch, fault, n)|
            == Tally(titles, batch, fault, n + 1).created - Tally(titles, batch, fault, n).created
  {
    UpsertedNext(batch, fault, n);
    var earlier := Upserted(batch, fault, n);
    if Succeeds(batch, fault, n) {
      GrowthByOne(titles + earlier, batch[n].value.id);
      assert titles + Upserted(batch, fault, n + 1) == titles + earlier + {batch[n].value.id};
    } else {
      assert Upserted(batch, fault, n + 1) == earlier;
    }
  }

  /** A passed batch stores one new title for every target it reports as created. */
  lemma {:induction false} CreatedIsGrowth(titles: set<int>, batch: seq<Option<Payload>>, fault: nat -> Fault, n: nat)
    requires n <= |batch|
    ensures |titles + Upserted(batch, fault, n)| == |titles| + Tally(titles, batch, fault, n).created
  {
    if n == 0 {
      assert titles + Upserted(batch, fault, 0) == titles;
    } else {
      CreatedIsGrowth(titles, batch, fault, n - 1);
      GrowthStep(titles, batch, fault, n - 1);
    }
  }

  /** A run that returns has counted every requested target exactly once, retried batches included. */
  lemma {:induction false} IngestConserves(
    counts: Tallies, titles: set<int>, rest: seq<Option<Payload>>, tries: nat -> (Attempt, Attempt), b: nat, size: nat)
    requires size > 0
    ensures var out := Ingest(counts, titles, rest, tries, b, size).0;
            out.Finished? ==> out.counts.created + out.counts.updated + out.counts.failed
                              == counts.created + counts.updated + counts.failed + |rest|
    decreases |rest|
  {
    if rest != [] {
      var k := Min(size, |rest|);
      var (end, stored) := BatchWithRetry(titles, rest[..k], tries(b));
      if end.Passed? {
        forall base: set<int>, fault: nat -> Fault {
          TallyCountsEach(base, rest[..k], fault, k);
        }
        IngestConserves(Add(counts, end.counts), stored, rest[k..], tries, b + 1, size);
      }
    }
  }

  /** The catalog grows by the reported creations plus the titles of commits that were applied but not acknowledged. */
  lemma {:induction false} GrowthIsCreatedPlusUnacknowledged(
    counts: Tallies, titles: set<int>, rest: seq<Option<Payload>>, tries: nat -> (Attempt, Attempt), b: nat, size: nat)
    requires size > 0
    ensures var (out, stored) := Ingest(counts, titles, rest, tries, b, size);
            out.Finished? ==> |stored| == |titles| + out.counts.created - counts.created
                                          + Unacknowledged(titles, rest, tries, b, size)
    decreases |rest|
  {
    if rest != [] {
      var k := Min(size, |rest|);
      var batch := rest[..k];
      var (end, stored) := BatchWithRetry(titles, batch, tries(b));
      if end.Passed? {
        var middle := TitlesAfter(titles, batch, tries(b).0);
        if EndOf(titles, batch, tries(b).0).Lost? {
          CreatedIsGrowth(middle, batch, tries(b).1.fault, k);
        } else {
          CreatedIsGrowth(titles, batch, tries(b).0.fault, k);
        }
        GrowthIsCreatedPlusUnacknowledged(Add(counts, end.counts), stored, rest[k..], tries, b + 1, size);
      }
    }
  }

  /** The report equals the growth exactly when no unacknowledged commit stored a title the catalog lacked. */
  lemma ReportIsGrowthIff(titles: set<int>, targets: seq<Option<Payload>>, tries: nat -> (Attempt, Attempt), size: nat)
    requires size > 0
    ensures var (out, stored) := Ingest(Tallies(0, 0, 0), titles, targets, tries, 0, size);
            out.Finished? ==>
              (|stored| == |titles| + out.counts.created <==> Unacknowledged(titles, targets, tries, 0, size) == 0)
  {
    GrowthIsCreatedPlusUnacknowledged(Tallies(0, 0, 0), titles, targets, tries, 0, size);
  }

  lemma OneTarget(titles: set<int>, id: int, attempt: Attempt)
    requires attempt.fault(0).NoFault?
    ensures var batch := [Some(Payload(id, []))];
            && !DropsMidway(batch, attempt.fault)
            && Upserted(batch, attempt.fault, 1) == {id}
            && Tally(titles, batch, attempt.fault, 1) == if id in titles then Tallies(0, 1, 0) else Tallies(1, 0, 0)
  {
    var batch := [Some(Payload(id, []))];
    assert Succeeds(batch, attempt.fault, 0);
    UpsertedNext(batch, attempt.fault, 0);
    assert Upserted(batch, attempt.fault, 0) == {};
    assert titles + {} == titles;
    assert Tally(titles, batch, attempt.fault, 0) == Tallies(0, 0, 0);
  }

  /** One applied but unacknowledged commit: the redone batch reports an update for a title the run itself created. */
  lemma LostAcknowledgement(id: int, tries: nat -> (Attempt, Attempt))
    requires tries(0).0.fault(0).NoFault? && Unheard(tries(0).0.commit)
    requires tries(0).1.fault(0).NoFault? && tries(0).1.commit.CommitOk?
    ensures Ingest(Tallies(0, 0, 0), {}, [Some(Payload(id, []))], tries, 0, 1) == (Finished(Tallies(0, 1, 0)), {id})
  {
    var batch := [Some(Payload(id, []))];
    assert batch[..1] == batch && batch[1..] == [];
    OneTarget({}, id, tries(0).0);
    OneTarget({id}, id, tries(0).1);
    assert TitlesAfter({}, batch, tries(0).0) == {id} == TitlesAfter({id}, batch, tries(0).1);
    assert BatchWithRetry({}, batch, tries(0)) == (Passed(Tallies(0, 1, 0)), {id});
    assert Ingest(Tallies(0, 1, 0), {id}, batch[1..], tries, 1, 1) == (Finished(Tallies(0, 1, 0)), {id});
  }

  /** A driver error whose `orig` is a connection reset, which in turn has the driver error as its context. */
  function ConnectionReset(): (e: Failure)
    ensures IsLoss(e)
  {
    var driver := Exc(false, true, false, false, "OperationalError", None, None, Some(1));
    var reset := Exc(false, false, false, true, "ConnectionResetError", None, Some(0), None);
    var e := Caught([driver, reset], 0);
    assert 1 in Links(driver) && Links(driver) == [1] && Links(reset) == [0];
    assert Closed(e.graph);
    ReachSelf(e.graph, 0);
    ReachStep(e.graph, 0, 0, 1);
    e
  }

  /** The first commit is applied, but its acknowledgement is lost with the connection; the retry goes through. */
  function OneLostCommit(): nat -> (Attempt, Attempt) {
    (b: nat) =>
      (Attempt((i: nat) => NoFault, CommitThrows(ConnectionReset(), true)), Attempt((i: nat) => NoFault, CommitOk))
  }

  /** Under that schedule a run over one new title reports no creation, and the catalog has grown by it. */
  lemma LostCreation()
    ensures Ingest(Tallies(0, 0, 0), {}, [Some(Payload(603, []))], OneLostCommit(), 0, 1)
            == (Finished(Tallies(0, 1, 0)), {603})
  {
    LostAcknowledgement(603, OneLostCommit());
  }

  /** No run loses a title: whatever the faults, everything stored before is still stored. */
  lemma {:induction false} NothingIsLost(
    counts: Tallies, titles: set<int>, rest: seq<Option<Payload>>, tries: nat -> (Attempt, Attempt), b: nat, size: nat)
    requires size > 0
    ensures titles <= Ingest(counts, titles, rest, tries, b, size).1
    decreases |rest|
  {
    if rest != [] {
      var k := Min(size, |rest|);
      var (end, stored) := BatchWithRetry(titles, rest[..k], tries(b));
      if end.Passed? {
        NothingIsLost(Add(counts, end.counts), stored, rest[k..], tries, b + 1, size);
      }
    }
  }
}
