/** What a cache hit serves under any version: the profile its key names, and exclusions committed at or after it. */
module SlateProvenance {
  import opened Basics
  import opened SlateCache

  /** What one ranking was made from. */
  datatype Source = Source(content: Option<Content>, excluded: set<int>)

  // ---- The same run under another ranking function ----

  /** Positions of one request that differ at most in the cards shown. */
  predicate SameProgress(a: Request, b: Request) {
    match (a, b)
    case (Ranked(u, n, p, x, id, _), Ranked(u', n', p', x', id', _)) =>
      u == u' && n == n' && p == p' && x == x' && id == id'
    case (StoredSlate(u, n, p, id, _), StoredSlate(u', n', p', id', _)) => u == u' && n == n' && p == p' && id == id'
    case (Served(_, id, isNew), Served(_, id', isNew')) => id == id' && isNew == isNew'
    case _ => a == b
  }

  /** Systems that differ at most in the cards shown and stored. */
  ghost predicate SameShape(s: System, t: System) {
    && s.users == t.users && s.index == t.index
    && s.cache.Keys == t.cache.Keys && (forall k | k in s.cache :: s.cache[k].slateId == t.cache[k].slateId)
    && s.requests.Keys == t.requests.Keys
    && (forall pid | pid in s.requests :: SameProgress(s.requests[pid], t.requests[pid]))
  }

  lemma MoveKeepsShape(s: System, t: System, pid: nat, r: Request, r': Request)
    requires SameShape(s, t) && SameProgress(r, r')
    ensures SameShape(s.(requests := s.requests[pid := r]), t.(requests := t.requests[pid := r']))
  {}

  /** Where a step that reads, looks up or ranks takes its request, if it fits the request's position. */
  function Target(env: Env, s: System, step: Step): Option<Request> {
    match step
    case Begin(pid, user, limit) =>
      if pid in s.requests || user !in s.users then None else Some(Started(user, SlateSize(env, limit)))
    case ReadProfile(pid) =>
      if pid in s.requests && s.requests[pid].Started?
      then Some(GotProfile(s.requests[pid].user, s.requests[pid].size, RowsOf(s, s.requests[pid].user).profile))
      else None
    case Lookup(pid) =>
      if pid in s.requests && s.requests[pid].GotProfile? then
        var r := s.requests[pid];
        if KeyOf(r) in s.cache
        then Some(Served(Hydrate(s.cache[KeyOf(r)].items, env.catalog), s.cache[KeyOf(r)].slateId, false))
        else Some(Missed(r.user, r.size, r.profile))
      else None
    case ReadExclusions(pid) =>
      if pid in s.requests && s.requests[pid].Missed? then
        var r := s.requests[pid];
        Some(GotExclusions(r.user, r.size, r.profile, RowsOf(s, r.user).excluded))
      else None
    case RankCards(pid, newId) =>
      if pid in s.requests && s.requests[pid].GotExclusions? then
        var r := s.requests[pid];
        Some(Ranked(r.user, r.size, r.profile, r.excluded, newId, env.rank(ContentOf(r.profile), r.excluded, r.size)))
      else None
    case _ => None
  }

  predicate OnlyMoves(step: Step) {
    step.Begin? || step.ReadProfile? || step.ReadExclusions? || step.RankCards? || step.Lookup?
  }

  lemma TargetIsNext(env: Env, s: System, step: Step)
    requires OnlyMoves(step)
    ensures Next(env, s, step)
            == match Target(env, s, step) case None => s case Some(r) => s.(requests := s.requests[step.pid := r])
  {}

  lemma TargetSame(a: Env, b: Env, s: System, t: System, step: Step)
    requires s.users == t.users && s.cache.Keys == t.cache.Keys && s.requests.Keys == t.requests.Keys
    requires forall k | k in s.cache :: s.cache[k].slateId == t.cache[k].slateId
    requires OnlyMoves(step) && a.defaultSize == b.defaultSize
    requires step.pid in s.requests ==> SameProgress(s.requests[step.pid], t.requests[step.pid])
    ensures Target(a, s, step).None? <==> Target(b, t, step).None?
    ensures Target(a, s, step).Some? ==> SameProgress(Target(a, s, step).value, Target(b, t, step).value)
  {}

  /** Steps that read, look up or rank. */
  lemma ReadKeepsShape(a: Env, b: Env, s: System, t: System, step: Step)
    requires SameShape(s, t) && a.defaultSize == b.defaultSize && OnlyMoves(step)
    ensures SameShape(Next(a, s, step), Next(b, t, step))
  {
    TargetIsNext(a, s, step);
    TargetIsNext(b, t, step);
    TargetSame(a, b, s, t, step);
    if Target(a, s, step).Some? {
      MoveKeepsShape(s, t, step.pid, Target(a, s, step).value, Target(b, t, step).value);
    }
  }

  lemma CacheKeepsShape(s: System, t: System, k: Key, v: Payload, w: Payload)
    requires SameShape(s, t) && v.slateId == w.slateId
    ensures SameShape(s.(cache := s.cache[k := v]), t.(cache := t.cache[k := w]))
  {}

  lemma IndexKeepsShape(s: System, t: System, index: map<int, set<Key>>)
    requires SameShape(s, t)
    ensures SameShape(s.(index := index), t.(index := index))
  {}

  lemma StoreKeepsShape(a: Env, b: Env, s: System, t: System, pid: nat)
    requires SameShape(s, t)
    ensures SameShape(Next(a, s, StoreSlate(pid)), Next(b, t, StoreSlate(pid)))
  {
    if pid in s.requests {
      var r, r' := s.requests[pid], t.requests[pid];
      assert SameProgress(r, r');
      if r.Ranked? {
        var next, next' := StoredSlate(r.user, r.size, r.profile, r.slateId, r.cards),
                           StoredSlate(r'.user, r'.size, r'.profile, r'.slateId, r'.cards);
        MoveKeepsShape(s, t, pid, next, next');
        CacheKeepsShape(s.(requests := s.requests[pid := next]), t.(requests := t.requests[pid := next']), KeyOf(r),
                        Payload(r.slateId, Bare(r.cards)), Payload(r'.slateId, Bare(r'.cards)));
      }
    }
  }

  lemma TrackKeepsShape(a: Env, b: Env, s: System, t: System, pid: nat)
    requires SameShape(s, t)
    ensures SameShape(Next(a, s, TrackKey(pid)), Next(b, t, TrackKey(pid)))
  {
    if pid in s.requests {
      var r, r' := s.requests[pid], t.requests[pid];
      assert SameProgress(r, r');
      if r.StoredSlate? {
        var next, next' := Served(r.cards, r.slateId, true), Served(r'.cards, r'.slateId, true);
        MoveKeepsShape(s, t, pid, next, next');
        IndexKeepsShape(s.(requests := s.requests[pid := next]), t.(requests := t.requests[pid := next']),
                        s.index[r.user := Tracked(s, r.user) + {KeyOf(r)}]);
      }
    }
  }

  lemma StepKeepsShape(a: Env, b: Env, s: System, t: System, step: Step)
    requires SameShape(s, t) && a.defaultSize == b.defaultSize
    ensures SameShape(Next(a, s, step), Next(b, t, step))
  {
    match step
    case CommitWrite(_, _) =>
    case Invalidate(_) =>
    case LoseEntries(_) =>
    case StoreSlate(pid) => StoreKeepsShape(a, b, s, t, pid);
    case TrackKey(pid) => TrackKeepsShape(a, b, s, t, pid);
    case _ => ReadKeepsShape(a, b, s, t, step);
  }

  lemma {:induction false} RunKeepsShape(a: Env, b: Env, users: map<int, User>, steps: seq<Step>)
    requires a.defaultSize == b.defaultSize
    ensures SameShape(Run(a, Initial(users), steps), Run(b, Initial(users), steps))
  {
    if steps != [] {
      var front, last := steps[..|steps| - 1], steps[|steps| - 1];
      RunKeepsShape(a, b, users, front);
      StepKeepsShape(a, b, Run(a, Initial(users), front), Run(b, Initial(users), front), last);
    }
  }

  // ---- Where an entry comes from ----

  /** The step stores a slate under the key. */
  predicate Stores(s: System, step: Step, k: Key) {
    step.StoreSlate? && step.pid in s.requests && s.requests[step.pid].Ranked? && KeyOf(s.requests[step.pid]) == k
  }

  lemma EntryAfter(env: Env, s: System, step: Step, k: Key)
    requires k in Next(env, s, step).cache
    ensures var t := Next(env, s, step);
            if Stores(s, step, k) then t.cache[k].items == Bare(s.requests[step.pid].cards)
            else k in s.cache && t.cache[k] == s.cache[k]
  {}

  /** Source of the last slate stored under a key. */
  function SourceOf(env: Env, users: map<int, User>, steps: seq<Step>, k: Key): Option<Source> {
    if steps == [] then None
    else
      var front, last := steps[..|steps| - 1], steps[|steps| - 1];
      var s := Run(env, Initial(users), front);
      if Stores(s, last, k)
      then Some(Source(ContentOf(s.requests[last.pid].profile), s.requests[last.pid].excluded))
      else SourceOf(env, users, front, k)
  }

  /** The source does not depend on the ranking function. */
  lemma {:induction false} SourceIsShape(a: Env, b: Env, users: map<int, User>, steps: seq<Step>, k: Key)
    requires a.defaultSize == b.defaultSize
    ensures SourceOf(a, users, steps, k) == SourceOf(b, users, steps, k)
  {
    if steps != [] {
      var front, last := steps[..|steps| - 1], steps[|steps| - 1];
      RunKeepsShape(a, b, users, front);
      SourceIsShape(a, b, users, front, k);
      var s, t := Run(a, Initial(users), front), Run(b, Initial(users), front);
      if last.StoreSlate? && last.pid in s.requests {
        assert SameProgress(s.requests[last.pid], t.requests[last.pid]);
      }
    }
  }

  /** A ranked request shows the slate of what it has read. */
  ghost predicate RankedFit(env: Env, r: Request) {
    r.Ranked? ==> r.cards == env.rank(ContentOf(r.profile), r.excluded, r.size)
  }

  ghost predicate RankedFits(env: Env, s: System) {
    forall pid | pid in s.requests :: RankedFit(env, s.requests[pid])
  }

  lemma StepRankedFits(env: Env, s: System, step: Step)
    requires RankedFits(env, s)
    ensures RankedFits(env, Next(env, s, step))
  {
    var t := Next(env, s, step);
    forall pid | pid in t.requests
      ensures RankedFit(env, t.requests[pid])
    {
      StepRankedFit(env, s, step, pid);
    }
  }

  lemma StepRankedFit(env: Env, s: System, step: Step, pid: nat)
    requires pid in Next(env, s, step).requests && (pid in s.requests ==> RankedFit(env, s.requests[pid]))
    ensures RankedFit(env, Next(env, s, step).requests[pid])
  {}

  lemma {:induction false} RunRankedFits(env: Env, users: map<int, User>, steps: seq<Step>)
    ensures RankedFits(env, Run(env, Initial(users), steps))
  {
    if steps != [] {
      var front, last := steps[..|steps| - 1], steps[|steps| - 1];
      RunRankedFits(env, users, front);
      StepRankedFits(env, Run(env, Initial(users), front), last);
    }
  }

  /** Every entry holds the slate ranked from its source. */
  lemma {:induction false} EntryIsRankedSource(env: Env, users: map<int, User>, steps: seq<Step>, k: Key)
    requires k in Run(env, Initial(users), steps).cache
    ensures var source := SourceOf(env, users, steps, k);
            && source.Some?
            && Run(env, Initial(users), steps).cache[k].items
               == Bare(env.rank(source.value.content, source.value.excluded, k.size))
  {
    var front, last := steps[..|steps| - 1], steps[|steps| - 1];
    var s := Run(env, Initial(users), front);
    EntryAfter(env, s, last, k);
    if Stores(s, last, k) {
      RunRankedFits(env, users, front);
    } else {
      EntryIsRankedSource(env, users, front, k);
    }
  }

  // ---- When the source was committed ----

  /** The rows of a user as committed after the first i steps. */
  function CommittedAt(env: Env, users: map<int, User>, steps: seq<Step>, user: int, i: nat): User
    requires i <= |steps|
  {
    RowsOf(Run(env, Initial(users), steps[..i]), user)
  }

  /** The profile was committed at moment i, and the exclusions at moment j, not before it. */
  ghost predicate ReadAt(env: Env, users: map<int, User>, steps: seq<Step>, user: int, p: Option<Profile>, x: set<int>,
                         i: nat, j: nat)
  {
    && i <= j <= |steps|
    && p == CommittedAt(env, users, steps, user, i).profile
    && x == CommittedAt(env, users, steps, user, j).excluded
  }

  ghost predicate WasRead(env: Env, users: map<int, User>, steps: seq<Step>, user: int, p: Option<Profile>,
                          x: set<int>) {
    exists i: nat, j: nat :: ReadAt(env, users, steps, user, p, x, i, j)
  }

  ghost predicate WasProfile(env: Env, users: map<int, User>, steps: seq<Step>, user: int, p: Option<Profile>) {
    exists i: nat :: i <= |steps| && p == CommittedAt(env, users, steps, user, i).profile
  }

  /** What every request has read was committed, the exclusions not before the profile. */
  ghost predicate Honest(env: Env, users: map<int, User>, steps: seq<Step>, r: Request) {
    match r
    case GotProfile(u, _, p) => WasProfile(env, users, steps, u, p)
    case Missed(u, _, p) => WasProfile(env, users, steps, u, p)
    case GotExclusions(u, _, p, x) => WasRead(env, users, steps, u, p, x)
    case Ranked(u, _, p, x, _, _) => WasRead(env, users, steps, u, p, x)
    case _ => true
  }

  lemma ProfileStays(env: Env, users: map<int, User>, front: seq<Step>, last: Step, user: int, p: Option<Profile>)
    requires WasProfile(env, users, front, user, p)
    ensures WasProfile(env, users, front + [last], user, p)
  {
    var i: nat :| i <= |front| && p == CommittedAt(env, users, front, user, i).profile;
    assert (front + [last])[..i] == front[..i];
    assert p == CommittedAt(env, users, front + [last], user, i).profile;
  }

  lemma ReadStays(env: Env, users: map<int, User>, front: seq<Step>, last: Step, user: int, p: Option<Profile>,
                  x: set<int>)
    requires WasRead(env, users, front, user, p, x)
    ensures WasRead(env, users, front + [last], user, p, x)
  {
    var i: nat, j: nat :| ReadAt(env, users, front, user, p, x, i, j);
    assert (front + [last])[..i] == front[..i] && (front + [last])[..j] == front[..j];
    assert ReadAt(env, users, front + [last], user, p, x, i, j);
  }

  lemma ReadNow(env: Env, users: map<int, User>, steps: seq<Step>, last: Step, user: int, p: Option<Profile>)
    ensures WasProfile(env, users, steps + [last], user, RowsOf(Run(env, Initial(users), steps), user).profile)
    ensures WasProfile(env, users, steps, user, p)
            ==> WasRead(env, users, steps + [last], user, p, RowsOf(Run(env, Initial(users), steps), user).excluded)
  {
    var n := |steps|;
    assert (steps + [last])[..n] == steps;
    assert RowsOf(Run(env, Initial(users), steps), user).profile
           == CommittedAt(env, users, steps + [last], user, n).profile;
    if WasProfile(env, users, steps, user, p) {
      var i: nat :| i <= n && p == CommittedAt(env, users, steps, user, i).profile;
      assert (steps + [last])[..i] == steps[..i];
      assert ReadAt(env, users, steps + [last], user, p, RowsOf(Run(env, Initial(users), steps), user).excluded, i, n);
    }
  }

  lemma HonestStays(env: Env, users: map<int, User>, front: seq<Step>, last: Step, r: Request)
    requires Honest(env, users, front, r)
    ensures Honest(env, users, front + [last], r)
  {
    match r
    case GotProfile(u, _, p) => ProfileStays(env, users, front, last, u, p);
    case Missed(u, _, p) => ProfileStays(env, users, front, last, u, p);
    case GotExclusions(u, _, p, x) => ReadStays(env, users, front, last, u, p, x);
    case Ranked(u, _, p, x, _, _) => ReadStays(env, users, front, last, u, p, x);
    case _ =>
  }

  /** Where a step leaves a request: where it was, or one position on with what is committed now. */
  lemma StepMoves(env: Env, s: System, step: Step, pid: nat)
    requires pid in Next(env, s, step).requests
    ensures var r' := Next(env, s, step).requests[pid];
            || r'.Started? || r'.StoredSlate? || r'.Served?
            || (pid in s.requests && r' == s.requests[pid])
            || (pid in s.requests && r'.GotProfile? && s.requests[pid].Started? && r'.user == s.requests[pid].user
                && r'.profile == RowsOf(s, r'.user).profile)
            || (pid in s.requests && r'.Missed? && s.requests[pid].GotProfile? && r'.user == s.requests[pid].user
                && r'.profile == s.requests[pid].profile)
            || (pid in s.requests && r'.GotExclusions? && s.requests[pid].Missed? && r'.user == s.requests[pid].user
                && r'.profile == s.requests[pid].profile && r'.excluded == RowsOf(s, r'.user).excluded)
            || (pid in s.requests && r'.Ranked? && s.requests[pid].GotExclusions? && r'.user == s.requests[pid].user
                && r'.profile == s.requests[pid].profile && r'.excluded == s.requests[pid].excluded)
  {}

  /** The request a step moves stays honest. */
  lemma MovedHonest(env: Env, users: map<int, User>, front: seq<Step>, last: Step, pid: nat)
    requires var s := Run(env, Initial(users), front);
             pid in s.requests ==> Honest(env, users, front, s.requests[pid])
    requires pid in Next(env, Run(env, Initial(users), front), last).requests
    ensures Honest(env, users, front + [last], Next(env, Run(env, Initial(users), front), last).requests[pid])
  {
    var s := Run(env, Initial(users), front);
    StepMoves(env, s, last, pid);
    if pid in s.requests {
      var r := s.requests[pid];
      HonestStays(env, users, front, last, r);
      match r {
        case Started(u, _) => ReadNow(env, users, front, last, u, None);
        case Missed(u, _, p) => ReadNow(env, users, front, last, u, p);
        case _ =>
      }
    }
  }

  lemma {:induction false} RunHonest(env: Env, users: map<int, User>, steps: seq<Step>)
    ensures var s := Run(env, Initial(users), steps);
            forall pid | pid in s.requests :: Honest(env, users, steps, s.requests[pid])
  {
    if steps != [] {
      var front, last := steps[..|steps| - 1], steps[|steps| - 1];
      RunHonest(env, users, front);
      assert steps == front + [last];
      forall pid | pid in Run(env, Initial(users), steps).requests
        ensures Honest(env, users, steps, Run(env, Initial(users), steps).requests[pid])
      {
        MovedHonest(env, users, front, last, pid);
      }
    }
  }

  lemma HonestAt(env: Env, users: map<int, User>, steps: seq<Step>, pid: nat)
    requires pid in Run(env, Initial(users), steps).requests
    ensures Honest(env, users, steps, Run(env, Initial(users), steps).requests[pid])
  {
    RunHonest(env, users, steps);
  }

  /** The source of an entry was committed: a profile carrying the key's version, and exclusions not older than it. */
  ghost predicate SourceCommitted(env: Env, users: map<int, User>, steps: seq<Step>, k: Key, source: Source) {
    exists p: Option<Profile> ::
      VersionOf(p) == k.version && ContentOf(p) == source.content
          && WasRead(env, users, steps, k.user, p, source.excluded)
  }

  lemma {:induction false} EntrySourceCommitted(env: Env, users: map<int, User>, steps: seq<Step>, k: Key)
    requires SourceOf(env, users, steps, k).Some?
    ensures SourceCommitted(env, users, steps, k, SourceOf(env, users, steps, k).value)
  {
    var front, last := steps[..|steps| - 1], steps[|steps| - 1];
    assert steps == front + [last];
    var s := Run(env, Initial(users), front);
    if Stores(s, last, k) {
      var r := s.requests[last.pid];
      HonestAt(env, users, front, last.pid);
      ReadStays(env, users, front, last, r.user, r.profile, r.excluded);
    } else {
      EntrySourceCommitted(env, users, front, k);
      var source := SourceOf(env, users, front, k).value;
      var p :| VersionOf(p) == k.version && ContentOf(p) == source.content
          && WasRead(env, users, front, k.user, p, source.excluded);
      ReadStays(env, users, front, last, k.user, p, source.excluded);
    }
  }

  // ---- Main results ----

  /** The request stands before its lookup, and its key is in the cache. */
  ghost predicate WillHit(env: Env, users: map<int, User>, steps: seq<Step>, pid: nat) {
    var s := Run(env, Initial(users), steps);
    pid in s.requests && s.requests[pid].GotProfile? && KeyOf(s.requests[pid]) in s.cache
  }

  /** The cards the lookup serves. */
  function HitCards(env: Env, users: map<int, User>, steps: seq<Step>, pid: nat): seq<Card>
    requires WillHit(env, users, steps, pid)
  {
    var s := Run(env, Initial(users), steps);
    Hydrate(s.cache[KeyOf(s.requests[pid])].items, env.catalog)
  }

  lemma LookupServes(env: Env, users: map<int, User>, steps: seq<Step>, pid: nat)
    requires WillHit(env, users, steps, pid)
    ensures var t := Next(env, Run(env, Initial(users), steps), Lookup(pid));
            && t.requests[pid].Served? && !t.requests[pid].isNew
            && t.requests[pid].cards == HitCards(env, users, steps, pid)
  {}

  lemma BareTitles(env: Env, cards: seq<Card>)
    requires forall i | 0 <= i < |cards| :: cards[i].title in env.catalog
    ensures Hydrate(Bare(cards), env.catalog) == Bare(cards)
  {
    HydrateKeeps(Bare(cards), env.catalog);
  }

  /** Every hit, current or not, serves the slate of a profile that carried the version of its key, ranked with
      exclusions that were committed no earlier than that profile. */
  lemma HitServesSource(env: Env, users: map<int, User>, steps: seq<Step>, pid: nat)
    requires env.Valid() && WillHit(env, users, steps, pid)
    ensures var k := KeyOf(Run(env, Initial(users), steps).requests[pid]);
            var source := SourceOf(env, users, steps, k);
            && source.Some? && SourceCommitted(env, users, steps, k, source.value)
            && HitCards(env, users, steps, pid) == Bare(env.rank(source.value.content, source.value.excluded, k.size))
    ensures var t := Next(env, Run(env, Initial(users), steps), Lookup(pid));
            && t.requests[pid].Served? && !t.requests[pid].isNew
            && t.requests[pid].cards == HitCards(env, users, steps, pid)
  {
    LookupServes(env, users, steps, pid);
    var k := KeyOf(Run(env, Initial(users), steps).requests[pid]);
    EntryIsRankedSource(env, users, steps, k);
    EntrySourceCommitted(env, users, steps, k);
    var source := SourceOf(env, users, steps, k).value;
    BareTitles(env, env.rank(source.content, source.excluded, k.size));
  }

  /** The hit shows what ranking the user's committed rows now would show. */
  ghost predicate HitCurrent(env: Env, users: map<int, User>, steps: seq<Step>, pid: nat)
    requires WillHit(env, users, steps, pid)
  {
    var s := Run(env, Initial(users), steps);
    var r := s.requests[pid];
    HitCards(env, users, steps, pid) == CurrentSlate(env, RowsOf(s, r.user), r.size)
  }

  /** The same system under another ranking function over the same catalog. */
  function Under(env: Env, rank: (Option<Content>, set<int>, nat) -> seq<Card>): Env {
    Env(rank, env.catalog, env.defaultSize)
  }

  lemma WillHitUnder(env: Env, other: Env, users: map<int, User>, steps: seq<Step>, pid: nat)
    requires WillHit(env, users, steps, pid) && env.defaultSize == other.defaultSize
    ensures WillHit(other, users, steps, pid)
    ensures Run(other, Initial(users), steps).requests[pid] == Run(env, Initial(users), steps).requests[pid]
    ensures Run(other, Initial(users), steps).users == Run(env, Initial(users), steps).users
  {
    RunKeepsShape(env, other, users, steps);
    assert SameProgress(Run(env, Initial(users), steps).requests[pid], Run(other, Initial(users), steps).requests[pid]);
  }

  /** Shows one card for the given source and nothing for any other. */
  function Telltale(source: Source, title: int): (Option<Content>, set<int>, nat) -> seq<Card> {
    (c: Option<Content>, x: set<int>, n: nat) =>
      if c == source.content && x == source.excluded then [Card(title, 0.0, [])] else []
  }

  /** Source of the entry a hit is about to serve, and the source a fresh ranking would have. */
  function EntrySource(env: Env, users: map<int, User>, steps: seq<Step>, pid: nat): Option<Source>
    requires WillHit(env, users, steps, pid)
  {
    SourceOf(env, users, steps, KeyOf(Run(env, Initial(users), steps).requests[pid]))
  }

  function FreshSource(env: Env, users: map<int, User>, steps: seq<Step>, pid: nat): Source
    requires WillHit(env, users, steps, pid)
  {
    var s := Run(env, Initial(users), steps);
    var u := RowsOf(s, s.requests[pid].user);
    Source(ContentOf(u.profile), u.excluded)
  }

  lemma SameSourceIsCurrent(env: Env, other: Env, users: map<int, User>, steps: seq<Step>, pid: nat)
    requires WillHit(env, users, steps, pid) && other.Valid() && other.defaultSize == env.defaultSize
    requires EntrySource(env, users, steps, pid) == Some(FreshSource(env, users, steps, pid))
    ensures WillHit(other, users, steps, pid) && HitCurrent(other, users, steps, pid)
  {
    WillHitUnder(env, other, users, steps, pid);
    HitServesSource(other, users, steps, pid);
    SourceIsShape(env, other, users, steps, KeyOf(Run(env, Initial(users), steps).requests[pid]));
  }

  /** If the source is outdated, a ranking function that tells the two apart serves outdated cards. */
  lemma OtherSourceShows(env: Env, users: map<int, User>, steps: seq<Step>, pid: nat, title: int)
    requires WillHit(env, users, steps, pid) && title in env.catalog
    requires EntrySource(env, users, steps, pid).Some?
    requires EntrySource(env, users, steps, pid) != Some(FreshSource(env, users, steps, pid))
    ensures var other := Under(env, Telltale(EntrySource(env, users, steps, pid).value, title));
            other.Valid() && WillHit(other, users, steps, pid) && !HitCurrent(other, users, steps, pid)
  {
    var source := EntrySource(env, users, steps, pid).value;
    var other := Under(env, Telltale(source, title));
    WillHitUnder(env, other, users, steps, pid);
    HitServesSource(other, users, steps, pid);
    SourceIsShape(env, other, users, steps, KeyOf(Run(env, Initial(users), steps).requests[pid]));
  }

  /** A hit is current under every ranking function exactly when the entry was made from the profile and the exclusions
      that are committed now (or there is nothing to show at all). */
  lemma HitCurrentIff(env: Env, users: map<int, User>, steps: seq<Step>, pid: nat)
    requires env.Valid() && WillHit(env, users, steps, pid)
    ensures (forall rank | Under(env, rank).Valid() ::
               WillHit(Under(env, rank), users, steps, pid) && HitCurrent(Under(env, rank), users, steps, pid))
            <==> EntrySource(env, users, steps, pid) == Some(FreshSource(env, users, steps, pid)) || env.catalog == {}
  {
    HitServesSource(env, users, steps, pid);
    if EntrySource(env, users, steps, pid) == Some(FreshSource(env, users, steps, pid)) {
      forall rank | Under(env, rank).Valid()
        ensures WillHit(Under(env, rank), users, steps, pid) && HitCurrent(Under(env, rank), users, steps, pid)
      {
        SameSourceIsCurrent(env, Under(env, rank), users, steps, pid);
      }
    } else if env.catalog == {} {
      forall rank | Under(env, rank).Valid()
        ensures WillHit(Under(env, rank), users, steps, pid) && HitCurrent(Under(env, rank), users, steps, pid)
      {
        EmptyCatalog(env, Under(env, rank), users, steps, pid);
      }
    } else {
      var title := Basics.Pick(env.catalog);
      OtherSourceShows(env, users, steps, pid, title);
    }
  }

  // ---- In terms of what the request holds ----

  lemma StepRaisesRows(env: Env, s: System, step: Step, user: int)
    requires Inv(env, s)
    ensures var u, v := RowsOf(s, user), RowsOf(Next(env, s, step), user);
            && VersionOf(u.profile) <= VersionOf(v.profile)
            && (VersionOf(u.profile) == VersionOf(v.profile) ==> u == v)
  {
    if user in s.users {
      StepRaises(env, s, step, user);
    }
  }

  /** Along a run the committed version never falls, and rows of one version are the same rows. */
  lemma {:induction false} CommittedRises(env: Env, users: map<int, User>, steps: seq<Step>, user: int, i: nat, j: nat)
    requires ValidUsers(users) && i <= j <= |steps|
    ensures var u, v := CommittedAt(env, users, steps, user, i), CommittedAt(env, users, steps, user, j);
            && VersionOf(u.profile) <= VersionOf(v.profile)
            && (VersionOf(u.profile) == VersionOf(v.profile) ==> u == v)
    decreases j
  {
    if i < j {
      CommittedRises(env, users, steps, user, i, j - 1);
      RunKeepsInv(env, Initial(users), steps[..j - 1]);
      StepRaisesRows(env, Run(env, Initial(users), steps[..j - 1]), steps[j - 1], user);
      assert steps[..j][..j - 1] == steps[..j - 1];
    }
  }

  /** So the version a request holds determines the profile behind it. */
  lemma VersionFixesProfile(env: Env, users: map<int, User>, steps: seq<Step>, user: int,
                            p: Option<Profile>, q: Option<Profile>)
    requires ValidUsers(users) && WasProfile(env, users, steps, user, p) && WasProfile(env, users, steps, user, q)
    requires VersionOf(p) == VersionOf(q)
    ensures p == q
  {
    var i: nat :| i <= |steps| && p == CommittedAt(env, users, steps, user, i).profile;
    var j: nat :| j <= |steps| && q == CommittedAt(env, users, steps, user, j).profile;
    if i <= j {
      CommittedRises(env, users, steps, user, i, j);
    } else {
      CommittedRises(env, users, steps, user, j, i);
    }
  }

  /** Every hit serves the slate of the very profile the request has read, ranked with exclusions that were committed no
      earlier than that profile. */
  lemma HitServesOwnProfile(env: Env, users: map<int, User>, steps: seq<Step>, pid: nat)
    requires env.Valid() && ValidUsers(users) && WillHit(env, users, steps, pid)
    ensures var s := Run(env, Initial(users), steps);
            var r := s.requests[pid];
            var source := EntrySource(env, users, steps, pid);
            && source.Some? && source.value.content == ContentOf(r.profile)
            && WasRead(env, users, steps, r.user, r.profile, source.value.excluded)
            && Next(env, s, Lookup(pid)).requests[pid].cards
               == Bare(env.rank(ContentOf(r.profile), source.value.excluded, r.size))
  {
    var r := Run(env, Initial(users), steps).requests[pid];
    HitServesSource(env, users, steps, pid);
    HonestAt(env, users, steps, pid);
    var source := EntrySource(env, users, steps, pid).value;
    var p :| VersionOf(p) == KeyOf(r).version && ContentOf(p) == source.content
        && WasRead(env, users, steps, r.user, p, source.excluded);
    var i: nat, j: nat :| ReadAt(env, users, steps, r.user, p, source.excluded, i, j);
    VersionFixesProfile(env, users, steps, r.user, p, r.profile);
  }

  /** A hit is current under every ranking function exactly when the content the request has read is the committed one
      and the entry was ranked with the committed exclusions (or there is nothing to show at all). */
  lemma HitCurrentByExclusionsIff(env: Env, users: map<int, User>, steps: seq<Step>, pid: nat)
    requires env.Valid() && ValidUsers(users) && WillHit(env, users, steps, pid)
    ensures var s := Run(env, Initial(users), steps);
            var r := s.requests[pid];
            var now, source := RowsOf(s, r.user), EntrySource(env, users, steps, pid);
            && source.Some?
            && ((forall rank | Under(env, rank).Valid() ::
                   WillHit(Under(env, rank), users, steps, pid) && HitCurrent(Under(env, rank), users, steps, pid))
                <==> (ContentOf(r.profile) == ContentOf(now.profile) && source.value.excluded == now.excluded)
                     || env.catalog == {})
  {
    HitServesOwnProfile(env, users, steps, pid);
    HitCurrentIff(env, users, steps, pid);
  }

  lemma ShownIsInCatalog(env: Env, content: Option<Content>, excluded: set<int>, size: nat)
    requires env.Valid()
    ensures env.rank(content, excluded, size) != [] ==> env.catalog != {}
  {
    var cards := env.rank(content, excluded, size);
    if cards != [] {
      assert cards[0].title in env.catalog;
    }
  }

  lemma EmptyCatalog(env: Env, other: Env, users: map<int, User>, steps: seq<Step>, pid: nat)
    requires WillHit(env, users, steps, pid) && other.Valid() && other.defaultSize == env.defaultSize
             && other.catalog == {}
    ensures WillHit(other, users, steps, pid) && HitCurrent(other, users, steps, pid)
  {
    WillHitUnder(env, other, users, steps, pid);
    HitServesSource(other, users, steps, pid);
    var k := KeyOf(Run(other, Initial(users), steps).requests[pid]);
    var source, now := EntrySource(other, users, steps, pid).value, FreshSource(other, users, steps, pid);
    ShownIsInCatalog(other, source.content, source.excluded, k.size);
    ShownIsInCatalog(other, now.content, now.excluded, k.size);
  }

  // ---- The failing run ----

  /** The overtaken request is served the slate of the old profile and the new exclusions: outdated whenever ranking
      tells the two profiles apart. */
  lemma OvertakenServed(env: Env)
    requires env.Valid()
    requires Bare(env.rank(Some(3), {5}, env.defaultSize)) != Bare(env.rank(Some(9), {5}, env.defaultSize))
    ensures var users := map[7 := User(Some(Profile(1, 3)), {})];
            && WillHit(env, users, OvertakenRun(), 1)
            && HitCards(env, users, OvertakenRun(), 1) == Bare(env.rank(Some(3), {5}, env.defaultSize))
            && !HitCurrent(env, users, OvertakenRun(), 1)
    ensures var s := Run(env, Initial(map[7 := User(Some(Profile(1, 3)), {})]), OvertakenRun());
            var t := Next(env, s, Lookup(1));
            && 1 in t.requests && t.requests[1].Served?
            && t.requests[1].cards != CurrentSlate(env, RowsOf(s, 7), env.defaultSize)
  {
    OvertakenHit(env);
    BareTitles(env, env.rank(Some(3), {5}, env.defaultSize));
    LookupServes(env, map[7 := User(Some(Profile(1, 3)), {})], OvertakenRun(), 1);
  }
}
