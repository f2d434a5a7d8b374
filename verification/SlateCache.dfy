/** The version-keyed slate cache as interleaved steps: requests read the profile, the cache, the exclusions, rank,
    store and track, while writers commit and background work drops or loses entries in between
    (recommendation_service.py `for_you`, taste_service.py, taste_recompute.py). */
module SlateCache {
  import opened Basics

  /** Features and vector of a profile; only their identity matters here. */
  type Content = int

  const EMPTY_CONTENT: Content := 0

  datatype Profile = Profile(version: nat, content: Content)

  /** One user's committed rows: the profile and the titles hidden from the feed. */
  datatype User = User(profile: Option<Profile>, excluded: set<int>)

  datatype Reason = Reason(code: string, message: string, evidence: int)

  const NO_EVIDENCE := 0

  datatype Card = Card(title: int, score: real, reasons: seq<Reason>)

  /** Ranking and the catalog are fixed; `rank` sees the profile content, the exclusions and the slate size. */
  datatype Env = Env(rank: (Option<Content>, set<int>, nat) -> seq<Card>, catalog: set<int>, defaultSize: nat) {
    ghost predicate Valid() {
      forall c, e, n, i | 0 <= i < |rank(c, e, n)| :: rank(c, e, n)[i].title in catalog
    }
  }

  // ---- Profile versions ----

  /** The version a request keys its slate by: 0 without a profile. */
  function VersionOf(p: Option<Profile>): nat {
    match p case None => 0 case Some(q) => q.version
  }

  function ContentOf(p: Option<Profile>): Option<Content> {
    match p case None => None case Some(q) => Some(q.content)
  }

  /** One more than the version, a missing one counting as 1. */
  function NextVersion(v: nat): nat {
    (if v == 0 then 1 else v) + 1
  }

  /** Raise the version without rebuilding; the first rating creates the profile. */
  function Bump(p: Option<Profile>): Option<Profile> {
    match p
    case None => Some(Profile(1, EMPTY_CONTENT))
    case Some(q) => Some(q.(version := NextVersion(q.version)))
  }

  /** Store the content built from the log under the next version. */
  function Recompute(p: Option<Profile>, built: Content): Option<Profile> {
    match p
    case None => Some(Profile(1, built))
    case Some(q) => Some(Profile(NextVersion(q.version), built))
  }

  /** The transactions that touch a profile or the feed exclusions, whatever contents and exclusions they compute. */
  datatype Write =
    | RateDeferred(excluded: set<int>)
    | RateInline(excluded: set<int>, built: Content)
    | DeferredRecompute(built: Content)
    | CompleteOnboarding(excluded: set<int>, built: Content)
    | MergeNothing
    | MergeSnapshot(merged: Content, built: Content)
    | ClearOverlay(built: Content)

  function Commit(u: User, w: Write): User {
    match w
    case RateDeferred(excluded) => User(Bump(u.profile), excluded)
    case RateInline(excluded, built) => User(Recompute(u.profile, built), excluded)
    case DeferredRecompute(built) => u.(profile := Recompute(u.profile, built))
    case CompleteOnboarding(excluded, built) => User(Recompute(u.profile, built), excluded)
    case MergeNothing => if u.profile.None? then u.(profile := Some(Profile(1, EMPTY_CONTENT))) else u
    case MergeSnapshot(merged, built) =>
      var staged := match u.profile case None => Profile(1, merged) case Some(q) => q.(content := merged);
      u.(profile := Recompute(Some(staged), built))
    case ClearOverlay(built) =>
      if u.profile.None? then u.(profile := Some(Profile(1, EMPTY_CONTENT)))
      else u.(profile := Recompute(u.profile, built))
  }

  // ---- Stored payloads ----

  datatype Payload = Payload(slateId: nat, items: seq<Card>)

  function DropEvidence(c: Card): Card {
    c.(reasons := seq(|c.reasons|, i requires 0 <= i < |c.reasons| => c.reasons[i].(evidence := NO_EVIDENCE)))
  }

  function Bare(cards: seq<Card>): (r: seq<Card>)
    ensures |r| == |cards| && forall i | 0 <= i < |cards| :: r[i] == DropEvidence(cards[i])
  {
    seq(|cards|, i requires 0 <= i < |cards| => DropEvidence(cards[i]))
  }

  /** Titles no longer in the catalog are dropped. */
  function Hydrate(items: seq<Card>, catalog: set<int>): seq<Card> {
    if items == [] then []
    else
      var rest := Hydrate(items[..|items| - 1], catalog);
      var last := items[|items| - 1];
      if last.title in catalog then rest + [last] else rest
  }

  lemma {:induction false} HydrateKeeps(items: seq<Card>, catalog: set<int>)
    requires forall i | 0 <= i < |items| :: items[i].title in catalog
    ensures Hydrate(items, catalog) == items
  {
    if items != [] {
      HydrateKeeps(items[..|items| - 1], catalog);
    }
  }

  // ---- The system ----

  datatype Key = Key(user: int, version: nat, size: nat)

  /** Where one `for_you` request stands. */
  datatype Request =
    | Started(user: int, size: nat)
    | GotProfile(user: int, size: nat, profile: Option<Profile>)
    | Missed(user: int, size: nat, profile: Option<Profile>)
    | GotExclusions(user: int, size: nat, profile: Option<Profile>, excluded: set<int>)
    | Ranked(user: int, size: nat, profile: Option<Profile>, excluded: set<int>, slateId: nat, cards: seq<Card>)
    | StoredSlate(user: int, size: nat, profile: Option<Profile>, slateId: nat, cards: seq<Card>)
    | Served(cards: seq<Card>, slateId: nat, isNew: bool)

  datatype System = System(users: map<int, User>, cache: map<Key, Payload>, index: map<int, set<Key>>,
                           requests: map<nat, Request>)

  datatype Step =
    | Begin(pid: nat, user: int, limit: Option<nat>)
    | ReadProfile(pid: nat)
    | Lookup(pid: nat)
    | ReadExclusions(pid: nat)
    | RankCards(pid: nat, newId: nat)
    | StoreSlate(pid: nat)
    | TrackKey(pid: nat)
    | CommitWrite(user: int, write: Write)
    | Invalidate(user: int)
    | LoseEntries(keys: set<Key>)

  function SlateSize(env: Env, limit: Option<nat>): nat {
    if limit.None? || limit.value == 0 then env.defaultSize else limit.value
  }

  function KeyOf(r: Request): Key
    requires r.GotProfile? || r.Missed? || r.GotExclusions? || r.Ranked? || r.StoredSlate?
  {
    Key(r.user, VersionOf(r.profile), r.size)
  }

  /** One request takes its next step. */
  function Advance(env: Env, s: System, pid: nat, r: Request): System {
    s.(requests := s.requests[pid := r])
  }

  /** Committed rows of a user; no rows reads as no profile and no exclusions. */
  function RowsOf(s: System, user: int): User {
    if user in s.users then s.users[user] else User(None, {})
  }

  function Tracked(s: System, user: int): set<Key> {
    if user in s.index then s.index[user] else {}
  }

  /** A step that does not fit the request's position changes nothing. */
  function Next(env: Env, s: System, step: Step): System {
    match step
    case Begin(pid, user, limit) =>
      if pid in s.requests || user !in s.users then s
      else Advance(env, s, pid, Started(user, SlateSize(env, limit)))
    case ReadProfile(pid) =>
      if pid in s.requests && s.requests[pid].Started? then
        var r := s.requests[pid];
        Advance(env, s, pid, GotProfile(r.user, r.size, RowsOf(s, r.user).profile))
      else s
    case Lookup(pid) =>
      if pid in s.requests && s.requests[pid].GotProfile? then
        var r := s.requests[pid];
        if KeyOf(r) in s.cache then
          Advance(env, s, pid, Served(Hydrate(s.cache[KeyOf(r)].items, env.catalog), s.cache[KeyOf(r)].slateId, false))
        else Advance(env, s, pid, Missed(r.user, r.size, r.profile))
      else s
    case ReadExclusions(pid) =>
      if pid in s.requests && s.requests[pid].Missed? then
        var r := s.requests[pid];
        Advance(env, s, pid, GotExclusions(r.user, r.size, r.profile, RowsOf(s, r.user).excluded))
      else s
    case RankCards(pid, newId) =>
      if pid in s.requests && s.requests[pid].GotExclusions? then
        var r := s.requests[pid];
        Advance(env, s, pid, Ranked(r.user, r.size, r.profile, r.excluded, newId,
                                    env.rank(ContentOf(r.profile), r.excluded, r.size)))
      else s
    case StoreSlate(pid) =>
      if pid in s.requests && s.requests[pid].Ranked? then
        var r := s.requests[pid];
        Advance(env, s, pid, StoredSlate(r.user, r.size, r.profile, r.slateId, r.cards))
        .(cache := s.cache[KeyOf(r) := Payload(r.slateId, Bare(r.cards))])
      else s
    case TrackKey(pid) =>
      if pid in s.requests && s.requests[pid].StoredSlate? then
        var r := s.requests[pid];
        Advance(env, s, pid, Served(r.cards, r.slateId, true))
        .(index := s.index[r.user := Tracked(s, r.user) + {KeyOf(r)}])
      else s
    case CommitWrite(user, write) =>
      if user in s.users then s.(users := s.users[user := Commit(s.users[user], write)]) else s
    case Invalidate(user) =>
      s.(cache := s.cache - Tracked(s, user), index := s.index - {user})
    case LoseEntries(keys) => s.(cache := s.cache - keys)
  }

  function Run(env: Env, s: System, steps: seq<Step>): System {
    if steps == [] then s else Next(env, Run(env, s, steps[..|steps| - 1]), steps[|steps| - 1])
  }

  // ---- Versions ----

  ghost predicate ValidUser(u: User) {
    u.profile.Some? ==> u.profile.value.version >= 1
  }

  /** Every change to the profile or the exclusions raises the version; nothing lowers it. */
  lemma CommitRaises(u: User, w: Write)
    requires ValidUser(u)
    ensures ValidUser(Commit(u, w))
    ensures VersionOf(u.profile) <= VersionOf(Commit(u, w).profile)
    ensures Commit(u, w) != u ==> VersionOf(u.profile) < VersionOf(Commit(u, w).profile)
  {}

  // ---- The invariant ----

  ghost function CurrentSlate(env: Env, u: User, size: nat): seq<Card> {
    Bare(env.rank(ContentOf(u.profile), u.excluded, size))
  }

  /** An entry under the user's current version holds the slate of the current profile and exclusions. */
  ghost predicate EntryFits(env: Env, s: System, k: Key)
    requires k in s.cache
  {
    && k.user in s.users
    && k.version <= VersionOf(s.users[k.user].profile)
    && (k.version == VersionOf(s.users[k.user].profile) ==>
          s.cache[k].items == CurrentSlate(env, s.users[k.user], k.size))
  }

  /** What a request has read is either superseded by a newer version or still current. */
  ghost predicate ReadFits(u: User, profile: Option<Profile>) {
    && VersionOf(profile) <= VersionOf(u.profile)
    && (VersionOf(profile) == VersionOf(u.profile) ==> profile == u.profile)
  }

  ghost predicate RequestFits(env: Env, s: System, r: Request) {
    match r
    case Started(user, _) => user in s.users
    case GotProfile(user, _, p) => user in s.users && ReadFits(s.users[user], p)
    case Missed(user, _, p) => user in s.users && ReadFits(s.users[user], p)
    case GotExclusions(user, _, p, x) =>
      && user in s.users && ReadFits(s.users[user], p)
      && (VersionOf(p) == VersionOf(s.users[user].profile) ==> x == s.users[user].excluded)
    case Ranked(user, size, p, x, _, cards) =>
      && user in s.users && ReadFits(s.users[user], p)
      && (VersionOf(p) == VersionOf(s.users[user].profile) ==> x == s.users[user].excluded)
      && cards == env.rank(ContentOf(p), x, size)
    case StoredSlate(user, _, p, _, _) => user in s.users && ReadFits(s.users[user], p)
    case Served(_, _, _) => true
  }

  ghost predicate Inv(env: Env, s: System) {
    && (forall u | u in s.users :: ValidUser(s.users[u]))
    && (forall k | k in s.cache :: EntryFits(env, s, k))
    && (forall pid | pid in s.requests :: RequestFits(env, s, s.requests[pid]))
  }

  lemma CommitKeepsInv(env: Env, s: System, user: int, w: Write)
    requires Inv(env, s) && user in s.users
    ensures Inv(env, Next(env, s, CommitWrite(user, w)))
  {
    var t := Next(env, s, CommitWrite(user, w));
    CommitRaises(s.users[user], w);
    forall k | k in t.cache
      ensures EntryFits(env, t, k)
    {
      assert EntryFits(env, s, k);
    }
    forall pid | pid in t.requests
      ensures RequestFits(env, t, t.requests[pid])
    {
      assert RequestFits(env, s, s.requests[pid]);
    }
  }

  lemma StoreKeepsInv(env: Env, s: System, pid: nat)
    requires Inv(env, s)
    ensures Inv(env, Next(env, s, StoreSlate(pid)))
  {
    if pid in s.requests && s.requests[pid].Ranked? {
      var t := Next(env, s, StoreSlate(pid));
      assert RequestFits(env, s, s.requests[pid]);
      forall k | k in t.cache
        ensures EntryFits(env, t, k)
      {
        if k != KeyOf(s.requests[pid]) {
          assert EntryFits(env, s, k);
        }
      }
      forall q | q in t.requests
        ensures RequestFits(env, t, t.requests[q])
      {
        assert q in s.requests && RequestFits(env, s, s.requests[q]);
      }
    }
  }

  /** Moving one request to a position that fits what is committed keeps the invariant. */
  lemma MoveKeepsInv(env: Env, s: System, t: System, pid: nat, r: Request)
    requires Inv(env, s) && RequestFits(env, s, r)
    requires t.users == s.users && t.cache == s.cache && t.requests == s.requests[pid := r]
    ensures Inv(env, t)
  {
    forall k | k in t.cache
      ensures EntryFits(env, t, k)
    {
      assert EntryFits(env, s, k);
    }
    forall q | q in t.requests
      ensures RequestFits(env, t, t.requests[q])
    {
      assert q != pid ==> RequestFits(env, s, s.requests[q]);
    }
  }

  /** Steps that move one request and leave users and cache alone. */
  lemma AdvanceKeepsInv(env: Env, s: System, step: Step)
    requires Inv(env, s)
    requires step.Begin? || step.ReadProfile? || step.Lookup? || step.ReadExclusions? || step.RankCards?
             || step.TrackKey?
    ensures Inv(env, Next(env, s, step))
  {
    var t := Next(env, s, step);
    if t != s {
      assert step.pid in s.requests ==> RequestFits(env, s, s.requests[step.pid]);
      MoveKeepsInv(env, s, t, step.pid, t.requests[step.pid]);
    }
  }

  lemma LossKeepsInv(env: Env, s: System, t: System)
    requires Inv(env, s)
    requires t.users == s.users && t.requests == s.requests
    requires forall k | k in t.cache :: k in s.cache && t.cache[k] == s.cache[k]
    ensures Inv(env, t)
  {
    forall k | k in t.cache
      ensures EntryFits(env, t, k)
    {
      assert EntryFits(env, s, k);
    }
    forall q | q in t.requests
      ensures RequestFits(env, t, t.requests[q])
    {
      assert RequestFits(env, s, s.requests[q]);
    }
  }

  lemma NextKeepsInv(env: Env, s: System, step: Step)
    requires Inv(env, s)
    ensures Inv(env, Next(env, s, step))
  {
    match step
    case CommitWrite(user, write) =>
      if user in s.users {
        CommitKeepsInv(env, s, user, write);
      }
    case StoreSlate(pid) => StoreKeepsInv(env, s, pid);
    case Invalidate(user) => LossKeepsInv(env, s, Next(env, s, step));
    case LoseEntries(keys) => LossKeepsInv(env, s, Next(env, s, step));
    case _ => AdvanceKeepsInv(env, s, step);
  }

  /** A system with committed users, an empty cache and no requests. */
  function Initial(users: map<int, User>): System {
    System(users, map[], map[], map[])
  }

  ghost predicate ValidUsers(users: map<int, User>) {
    forall u | u in users :: ValidUser(users[u])
  }

  lemma {:induction false} RunKeepsInv(env: Env, s: System, steps: seq<Step>)
    requires Inv(env, s)
    ensures Inv(env, Run(env, s, steps))
  {
    if steps != [] {
      RunKeepsInv(env, s, steps[..|steps| - 1]);
      NextKeepsInv(env, Run(env, s, steps[..|steps| - 1]), steps[|steps| - 1]);
    }
  }

  // ---- Main results ----

  lemma {:induction false} VersionsNeverFall(env: Env, s: System, steps: seq<Step>, user: int)
    requires Inv(env, s) && user in s.users
    ensures user in Run(env, s, steps).users
    ensures VersionOf(s.users[user].profile) <= VersionOf(Run(env, s, steps).users[user].profile)
    ensures VersionOf(s.users[user].profile) == VersionOf(Run(env, s, steps).users[user].profile)
            ==> s.users[user] == Run(env, s, steps).users[user]
  {
    if steps != [] {
      var front, last := steps[..|steps| - 1], steps[|steps| - 1];
      VersionsNeverFall(env, s, front, user);
      RunKeepsInv(env, s, front);
      StepRaises(env, Run(env, s, front), last, user);
    }
  }

  lemma StepRaises(env: Env, s: System, step: Step, user: int)
    requires Inv(env, s) && user in s.users
    ensures var t := Next(env, s, step);
            && user in t.users && VersionOf(s.users[user].profile) <= VersionOf(t.users[user].profile)
            && (VersionOf(s.users[user].profile) == VersionOf(t.users[user].profile) ==> s.users[user] == t.users[user])
  {
    if step.CommitWrite? && step.user == user {
      CommitRaises(s.users[user], step.write);
    }
  }

  /** After any interleaving, a cache hit taken while the version read is still current serves exactly the slate
      ranked from the current profile and exclusions, less its evidence. */
  lemma HitIsCurrent(env: Env, users: map<int, User>, steps: seq<Step>, pid: nat)
    requires env.Valid() && ValidUsers(users)
    requires var s := Run(env, Initial(users), steps);
             && pid in s.requests && s.requests[pid].GotProfile? && KeyOf(s.requests[pid]) in s.cache
             && VersionOf(s.requests[pid].profile) == VersionOf(RowsOf(s, s.requests[pid].user).profile)
    ensures var s := Run(env, Initial(users), steps);
            var r := s.requests[pid];
            && r.user in s.users
            && Next(env, s, Lookup(pid)).requests[pid]
               == Served(CurrentSlate(env, s.users[r.user], r.size), s.cache[KeyOf(r)].slateId, false)
  {
    RunKeepsInv(env, Initial(users), steps);
    var s := Run(env, Initial(users), steps);
    var r := s.requests[pid];
    assert RequestFits(env, s, r) && EntryFits(env, s, KeyOf(r));
    HydrateKeeps(s.cache[KeyOf(r)].items, env.catalog);
  }

  /** A hit and a fresh ranking agree: either way, a request shows the same cards while the version stands. */
  lemma FreshIsCurrent(env: Env, users: map<int, User>, steps: seq<Step>, pid: nat)
    requires ValidUsers(users)
    requires var s := Run(env, Initial(users), steps);
             && pid in s.requests && s.requests[pid].Ranked?
             && VersionOf(s.requests[pid].profile) == VersionOf(RowsOf(s, s.requests[pid].user).profile)
    ensures var s := Run(env, Initial(users), steps);
            var r := s.requests[pid];
            r.user in s.users && Bare(r.cards) == CurrentSlate(env, s.users[r.user], r.size)
  {
    RunKeepsInv(env, Initial(users), steps);
    var s := Run(env, Initial(users), steps);
    assert RequestFits(env, s, s.requests[pid]);
  }

  /** An entry under an outdated version can only be found by a request that read the profile before the change:
      requests that start now look up the current version. */
  lemma StaleEntriesUnreachable(env: Env, users: map<int, User>, steps: seq<Step>, pid: nat, k: Key)
    requires ValidUsers(users)
    requires var s := Run(env, Initial(users), steps);
             && k in s.cache && k.user in s.users && k.version != VersionOf(s.users[k.user].profile)
             && pid in s.requests && s.requests[pid].Started?
    ensures var t := Next(env, Run(env, Initial(users), steps), ReadProfile(pid));
            t.requests[pid].GotProfile? && KeyOf(t.requests[pid]) != k
  {
    RunKeepsInv(env, Initial(users), steps);
    var s := Run(env, Initial(users), steps);
    assert RequestFits(env, s, s.requests[pid]);
  }

  /** The condition on the version is needed: a request that read version 1 is served, after a rating committed,
      a slate ranked from the version-1 profile with the new exclusions. */
  function OvertakenRun(): seq<Step> {
    [Begin(0, 7, None), ReadProfile(0), Lookup(0),
     Begin(1, 7, None), ReadProfile(1), CommitWrite(7, RateInline({5}, 9)),
     ReadExclusions(0), RankCards(0, 100), StoreSlate(0)]
  }

  /** The system after the first n steps. */
  function After(env: Env, n: nat): System
    requires n <= 9
  {
    Run(env, Initial(map[7 := User(Some(Profile(1, 3)), {})]), OvertakenRun()[..n])
  }

  lemma AfterStep(env: Env, n: nat)
    requires n < 9
    ensures After(env, n + 1) == Next(env, After(env, n), OvertakenRun()[n])
  {
    var steps := OvertakenRun();
    assert steps[..n + 1][..n] == steps[..n];
  }

  /** Request 0 misses under version 1. */
  lemma OvertakenMiss(env: Env)
    ensures var p := Some(Profile(1, 3));
            var s := After(env, 3);
            && s.users == map[7 := User(p, {})] && s.cache == map[]
            && s.requests == map[0 := Missed(7, env.defaultSize, p)]
  {
    var p := Some(Profile(1, 3));
    AfterStep(env, 0);
    assert After(env, 1).requests == map[0 := Started(7, env.defaultSize)];
    AfterStep(env, 1);
    assert After(env, 2).requests == map[0 := GotProfile(7, env.defaultSize, p)];
    AfterStep(env, 2);
  }

  /** Request 1 reads version 1. */
  lemma OvertakenRead(env: Env)
    ensures var p := Some(Profile(1, 3));
            var s := After(env, 5);
            && s.users == map[7 := User(p, {})]
            && s.requests == map[0 := Missed(7, env.defaultSize, p), 1 := GotProfile(7, env.defaultSize, p)]
  {
    var p := Some(Profile(1, 3));
    OvertakenMiss(env);
    AfterStep(env, 3);
    assert After(env, 4).requests == map[0 := Missed(7, env.defaultSize, p), 1 := Started(7, env.defaultSize)];
    AfterStep(env, 4);
  }

  /** Then a rating commits version 2. */
  lemma OvertakenRating(env: Env)
    ensures var p := Some(Profile(1, 3));
            var s := After(env, 6);
            && s.users == map[7 := User(Some(Profile(2, 9)), {5})]
            && s.requests == map[0 := Missed(7, env.defaultSize, p), 1 := GotProfile(7, env.defaultSize, p)]
  {
    OvertakenRead(env);
    AfterStep(env, 5);
  }

  lemma OvertakenHit(env: Env)
    ensures var users := map[7 := User(Some(Profile(1, 3)), {})];
            var s := Run(env, Initial(users), OvertakenRun());
            && RowsOf(s, 7) == User(Some(Profile(2, 9)), {5})
            && 1 in s.requests && s.requests[1] == GotProfile(7, env.defaultSize, Some(Profile(1, 3)))
            && KeyOf(s.requests[1]) in s.cache
            && s.cache[KeyOf(s.requests[1])].items == Bare(env.rank(Some(3), {5}, env.defaultSize))
  {
    var p := Some(Profile(1, 3));
    var size := env.defaultSize;
    OvertakenRating(env);
    AfterStep(env, 6);
    assert After(env, 7).requests[0] == GotExclusions(7, size, p, {5});
    AfterStep(env, 7);
    assert After(env, 8).requests[0] == Ranked(7, size, p, {5}, 100, env.rank(Some(3), {5}, size));
    AfterStep(env, 8);
    assert OvertakenRun()[..9] == OvertakenRun();
  }
}
