/** What a freshly ranked request serves, from its first step to its last (recommendation_service.py `for_you`). */
module FreshSlates {
  import opened Basics
  import opened SlateCache
  import opened SlateProvenance

  // ---- The cards a request carries ----

  /** A request that has its slate carries the ranking of what it has read; a stored one did so when it stored. */
  ghost predicate Carries(env: Env, users: map<int, User>, steps: seq<Step>, pid: nat, r: Request) {
    match r
    case Started(u, n) => Begun(env, steps, pid, u, n)
    case GotProfile(u, n, p) => Begun(env, steps, pid, u, n) && WasProfile(env, users, steps, u, p)
    case Missed(u, n, p) => Begun(env, steps, pid, u, n) && WasProfile(env, users, steps, u, p)
    case GotExclusions(u, n, p, x) => Begun(env, steps, pid, u, n) && WasRead(env, users, steps, u, p, x)
    case Ranked(u, n, p, x, id, cards) =>
      && Begun(env, steps, pid, u, n) && WasRead(env, users, steps, u, p, x)
      && RankCards(pid, id) in steps && cards == env.rank(ContentOf(p), x, n)
    case StoredSlate(u, n, p, id, cards) =>
      exists x, m: nat :: IsOwnRanking(env, users, steps, pid, u, n, p, x, id, cards, m)
    case Served(cards, id, isNew) =>
      isNew ==> exists u, n, p, x, m: nat :: IsOwnRanking(env, users, steps, pid, u, n, p, x, id, cards, m)
  }

  /** The request was begun for this user with this size: the one asked for, or the default for none or zero. */
  ghost predicate Begun(env: Env, steps: seq<Step>, pid: nat, user: int, size: nat) {
    exists limit: Option<nat> :: BegunWith(env, steps, pid, user, size, limit)
  }

  ghost predicate BegunWith(env: Env, steps: seq<Step>, pid: nat, user: int, size: nat, limit: Option<nat>) {
    && Begin(pid, user, limit) in steps
    && (limit.None? || limit.value == 0 ==> size == env.defaultSize)
    && (limit.Some? && limit.value > 0 ==> size == limit.value)
  }

  /** The cards are the ranking of a profile and exclusions that the request has read, the exclusions not before the
      profile; and right after step m of the run they lay, less their evidence, under the key of the request. */
  ghost predicate IsOwnRanking(env: Env, users: map<int, User>, steps: seq<Step>, pid: nat, user: int, size: nat,
                               p: Option<Profile>, x: set<int>, id: nat, cards: seq<Card>, m: nat)
  {
    && Begun(env, steps, pid, user, size) && WasRead(env, users, steps, user, p, x)
    && RankCards(pid, id) in steps && cards == env.rank(ContentOf(p), x, size)
    && m < |steps| && steps[m] == StoreSlate(pid)
    && WasStored(env, users, steps[..m + 1], Key(user, VersionOf(p), size), id, cards)
  }

  ghost predicate WasStored(env: Env, users: map<int, User>, steps: seq<Step>, k: Key, id: nat, cards: seq<Card>) {
    var s := Run(env, Initial(users), steps);
    k in s.cache && s.cache[k].slateId == id && LessEvidence(cards, s.cache[k].items)
  }

  /** The same cards and reasons in the same order, with no evidence left. */
  ghost predicate LessEvidence(cards: seq<Card>, shown: seq<Card>) {
    && |shown| == |cards|
    && forall i | 0 <= i < |cards| :: SameCard(cards[i], shown[i])
  }

  ghost predicate SameCard(a: Card, b: Card) {
    && b.title == a.title && b.score == a.score && |b.reasons| == |a.reasons|
    && forall j | 0 <= j < |a.reasons| ::
         b.reasons[j].code == a.reasons[j].code && b.reasons[j].message == a.reasons[j].message
         && b.reasons[j].evidence == 0
  }

  lemma BareIsLessEvidence(cards: seq<Card>)
    ensures LessEvidence(cards, Bare(cards))
  {}

  /** The stripped cards are determined by the full ones. */
  lemma LessEvidenceUnique(cards: seq<Card>, a: seq<Card>, b: seq<Card>)
    requires LessEvidence(cards, a) && LessEvidence(cards, b)
    ensures a == b
  {
    forall i | 0 <= i < |cards|
      ensures a[i] == b[i]
    {
      assert SameCard(cards[i], a[i]) && SameCard(cards[i], b[i]);
      assert a[i].reasons == b[i].reasons;
    }
  }

  // ---- The invariant over runs ----

  lemma BegunStays(env: Env, front: seq<Step>, last: Step, pid: nat, user: int, size: nat)
    requires Begun(env, front, pid, user, size)
    ensures Begun(env, front + [last], pid, user, size)
  {
    var limit: Option<nat> :| BegunWith(env, front, pid, user, size, limit);
    assert Begin(pid, user, limit) in front + [last];
    assert BegunWith(env, front + [last], pid, user, size, limit);
  }

  lemma BegunNow(env: Env, front: seq<Step>, pid: nat, user: int, limit: Option<nat>)
    ensures Begun(env, front + [Begin(pid, user, limit)], pid, user, SlateSize(env, limit))
  {
    var steps := front + [Begin(pid, user, limit)];
    assert steps[|front|] == Begin(pid, user, limit);
    assert BegunWith(env, steps, pid, user, SlateSize(env, limit), limit);
  }

  lemma OwnRankingStays(env: Env, users: map<int, User>, front: seq<Step>, last: Step, pid: nat, user: int, size: nat,
                        p: Option<Profile>, x: set<int>, id: nat, cards: seq<Card>, m: nat)
    requires IsOwnRanking(env, users, front, pid, user, size, p, x, id, cards, m)
    ensures IsOwnRanking(env, users, front + [last], pid, user, size, p, x, id, cards, m)
  {
    BegunStays(env, front, last, pid, user, size);
    ReadStays(env, users, front, last, user, p, x);
    assert (front + [last])[..m + 1] == front[..m + 1];
    assert RankCards(pid, id) in front + [last];
  }

  lemma CarriesStays(env: Env, users: map<int, User>, front: seq<Step>, last: Step, pid: nat, r: Request)
    requires Carries(env, users, front, pid, r)
    ensures Carries(env, users, front + [last], pid, r)
  {
    match r
    case Started(u, n) => BegunStays(env, front, last, pid, u, n);
    case GotProfile(u, n, p) =>
      BegunStays(env, front, last, pid, u, n);
      ProfileStays(env, users, front, last, u, p);
    case Missed(u, n, p) =>
      BegunStays(env, front, last, pid, u, n);
      ProfileStays(env, users, front, last, u, p);
    case GotExclusions(u, n, p, x) =>
      BegunStays(env, front, last, pid, u, n);
      ReadStays(env, users, front, last, u, p, x);
    case Ranked(u, n, p, x, id, _) =>
      BegunStays(env, front, last, pid, u, n);
      ReadStays(env, users, front, last, u, p, x);
      assert RankCards(pid, id) in front + [last];
    case StoredSlate(u, n, p, id, cards) =>
      var x, m: nat :| IsOwnRanking(env, users, front, pid, u, n, p, x, id, cards, m);
      OwnRankingStays(env, users, front, last, pid, u, n, p, x, id, cards, m);
    case Served(cards, id, isNew) =>
      if isNew {
        var u, n, p, x, m: nat :| IsOwnRanking(env, users, front, pid, u, n, p, x, id, cards, m);
        OwnRankingStays(env, users, front, last, pid, u, n, p, x, id, cards, m);
      }
  }

  /** Storing puts the cards, less their evidence, under the key of the request. */
  lemma StoredNow(env: Env, users: map<int, User>, front: seq<Step>, pid: nat)
    requires var s := Run(env, Initial(users), front);
             pid in s.requests && s.requests[pid].Ranked? && Carries(env, users, front, pid, s.requests[pid])
    ensures var r := Run(env, Initial(users), front).requests[pid];
            IsOwnRanking(env, users, front + [StoreSlate(pid)], pid, r.user, r.size, r.profile, r.excluded, r.slateId,
                         r.cards, |front|)
  {
    var s, last := Run(env, Initial(users), front), StoreSlate(pid);
    var r, steps := s.requests[pid], front + [last];
    BegunStays(env, front, last, pid, r.user, r.size);
    ReadStays(env, users, front, last, r.user, r.profile, r.excluded);
    assert RankCards(pid, r.slateId) in steps;
    assert steps[..|front| + 1] == steps && steps[..|front|] == front && steps[|front|] == last;
    BareIsLessEvidence(r.cards);
    assert WasStored(env, users, steps, Key(r.user, VersionOf(r.profile), r.size), r.slateId, r.cards);
  }

  /** A request whose last step is this one carries what it should. */
  lemma MovedCarries(env: Env, users: map<int, User>, front: seq<Step>, last: Step, pid: nat)
    requires var s := Run(env, Initial(users), front);
             pid in s.requests ==> Carries(env, users, front, pid, s.requests[pid])
    requires pid in Next(env, Run(env, Initial(users), front), last).requests
    ensures Carries(env, users, front + [last], pid, Next(env, Run(env, Initial(users), front), last).requests[pid])
  {
    var s := Run(env, Initial(users), front);
    var t := Next(env, s, last);
    if pid !in s.requests {
      BegunNow(env, front, pid, last.user, last.limit);
    } else if t.requests[pid] == s.requests[pid] {
      CarriesStays(env, users, front, last, pid, s.requests[pid]);
    } else {
      StepCarries(env, users, front, last, pid);
    }
  }

  lemma StepCarries(env: Env, users: map<int, User>, front: seq<Step>, last: Step, pid: nat)
    requires var s := Run(env, Initial(users), front);
             && pid in s.requests && Carries(env, users, front, pid, s.requests[pid])
             && pid in Next(env, s, last).requests && Next(env, s, last).requests[pid] != s.requests[pid]
    ensures Carries(env, users, front + [last], pid, Next(env, Run(env, Initial(users), front), last).requests[pid])
  {
    var s := Run(env, Initial(users), front);
    var r := s.requests[pid];
    CarriesStays(env, users, front, last, pid, r);
    MovesOn(env, s, last, pid);
    match r
    case Started(u, _) => ReadNow(env, users, front, last, u, None);
    case Missed(u, _, p) => ReadNow(env, users, front, last, u, p);
    case GotExclusions(_, _, _, _) => assert (front + [last])[|front|] == last;
    case Ranked(_, _, _, _, _, _) => StoredNow(env, users, front, pid);
    case _ =>
  }

  /** A step that changes a request moves it to the next position, with what it reads. */
  lemma MovesOn(env: Env, s: System, step: Step, pid: nat)
    requires pid in s.requests && pid in Next(env, s, step).requests
    requires Next(env, s, step).requests[pid] != s.requests[pid]
    ensures var r := Next(env, s, step).requests[pid];
            match s.requests[pid]
            case Started(u, n) => r == GotProfile(u, n, RowsOf(s, u).profile)
            case GotProfile(u, n, p) => r == Missed(u, n, p) || (r.Served? && !r.isNew)
            case Missed(u, n, p) => r == GotExclusions(u, n, p, RowsOf(s, u).excluded)
            case GotExclusions(u, n, p, x) =>
              step.RankCards? && step.pid == pid && r == Ranked(u, n, p, x, step.newId, env.rank(ContentOf(p), x, n))
            case Ranked(u, n, p, x, id, cards) => step == StoreSlate(pid) && r == StoredSlate(u, n, p, id, cards)
            case StoredSlate(u, n, p, id, cards) => r == Served(cards, id, true)
            case Served(_, _, _) => false
  {}

  lemma {:induction false} RunCarries(env: Env, users: map<int, User>, steps: seq<Step>, pid: nat)
    requires pid in Run(env, Initial(users), steps).requests
    ensures Carries(env, users, steps, pid, Run(env, Initial(users), steps).requests[pid])
  {
    var front, last := steps[..|steps| - 1], steps[|steps| - 1];
    assert steps == front + [last];
    if pid in Run(env, Initial(users), front).requests {
      RunCarries(env, users, front, pid);
    }
    MovedCarries(env, users, front, last, pid);
  }

  // ---- Main results ----

  /** Over every run, a freshly ranked answer is the ranking of the profile and the exclusions its request has read, of
      the size asked for, under the id its ranking drew, and it was stored less its evidence under the request's key. */
  lemma FreshServesOwnRanking(env: Env, users: map<int, User>, steps: seq<Step>, pid: nat)
    requires var s := Run(env, Initial(users), steps);
             pid in s.requests && s.requests[pid].Served? && s.requests[pid].isNew
    ensures var r := Run(env, Initial(users), steps).requests[pid];
            exists u, n, p, x, m: nat :: IsOwnRanking(env, users, steps, pid, u, n, p, x, r.slateId, r.cards, m)
  {
    RunCarries(env, users, steps, pid);
  }

  /** Whoever hits the stored entry is shown the same cards, less their evidence. */
  lemma HitShowsStored(env: Env, users: map<int, User>, steps: seq<Step>, pid: nat, id: nat, cards: seq<Card>)
    requires WillHit(env, users, steps, pid) && forall i | 0 <= i < |cards| :: cards[i].title in env.catalog
    requires WasStored(env, users, steps, KeyOf(Run(env, Initial(users), steps).requests[pid]), id, cards)
    ensures var r := Next(env, Run(env, Initial(users), steps), Lookup(pid)).requests[pid];
            r.Served? && r.slateId == id && LessEvidence(cards, r.cards)
  {
    BareIsLessEvidence(cards);
    var s := Run(env, Initial(users), steps);
    LessEvidenceUnique(cards, Bare(cards), s.cache[KeyOf(s.requests[pid])].items);
    BareTitles(env, cards);
  }

  /** A request that has read its profile and misses, run to its end: it serves the ranking of that profile and the
      committed exclusions, and leaves it stored and tracked under its key. */
  lemma MissServesRanking(env: Env, s: System, pid: nat, id: nat)
    requires pid in s.requests && s.requests[pid].GotProfile? && KeyOf(s.requests[pid]) !in s.cache
    ensures var r := s.requests[pid];
            var cards := env.rank(ContentOf(r.profile), RowsOf(s, r.user).excluded, r.size);
            var t := Run(env, s, MissSteps(pid, id));
            && pid in t.requests && t.requests[pid] == Served(cards, id, true)
            && KeyOf(r) in t.cache && t.cache[KeyOf(r)].slateId == id && LessEvidence(cards, t.cache[KeyOf(r)].items)
            && KeyOf(r) in Tracked(t, r.user) && t.users == s.users
  {
    var r := s.requests[pid];
    var cards := env.rank(ContentOf(r.profile), RowsOf(s, r.user).excluded, r.size);
    FiveSteps(env, s, Lookup(pid), ReadExclusions(pid), RankCards(pid, id), StoreSlate(pid), TrackKey(pid));
    MissToRanked(env, s, pid, id);
    BareIsLessEvidence(cards);
  }

  function MissSteps(pid: nat, id: nat): seq<Step> {
    [Lookup(pid), ReadExclusions(pid), RankCards(pid, id), StoreSlate(pid), TrackKey(pid)]
  }

  lemma ThreeSteps(env: Env, s: System, a: Step, b: Step, c: Step)
    ensures Run(env, s, [a, b, c]) == Next(env, Next(env, Next(env, s, a), b), c)
  {
    assert [a, b, c][..2] == [a, b] && [a, b][..1] == [a] && [a][..0] == [];
    assert Run(env, s, [a]) == Next(env, Run(env, s, []), a);
    assert Run(env, s, [a, b]) == Next(env, Run(env, s, [a]), b);
  }

  lemma FiveSteps(env: Env, s: System, a: Step, b: Step, c: Step, d: Step, e: Step)
    ensures Run(env, s, [a, b, c, d, e]) == Next(env, Next(env, Next(env, Next(env, Next(env, s, a), b), c), d), e)
  {
    ThreeSteps(env, s, a, b, c);
    assert [a, b, c, d, e][..4] == [a, b, c, d] && [a, b, c, d][..3] == [a, b, c];
    assert Run(env, s, [a, b, c, d]) == Next(env, Run(env, s, [a, b, c]), d);
  }

  lemma MissToRanked(env: Env, s: System, pid: nat, id: nat)
    requires pid in s.requests && s.requests[pid].GotProfile? && KeyOf(s.requests[pid]) !in s.cache
    ensures var r := s.requests[pid];
            var x := RowsOf(s, r.user).excluded;
            Next(env, Next(env, Next(env, s, Lookup(pid)), ReadExclusions(pid)), RankCards(pid, id))
            == s.(requests := s.requests[pid := Ranked(r.user, r.size, r.profile, x, id,
                                                       env.rank(ContentOf(r.profile), x, r.size))])
  {
    var r := s.requests[pid];
    var x := RowsOf(s, r.user).excluded;
    var missed := s.(requests := s.requests[pid := Missed(r.user, r.size, r.profile)]);
    assert Next(env, s, Lookup(pid)) == missed;
    var excluded := s.(requests := s.requests[pid := GotExclusions(r.user, r.size, r.profile, x)]);
    assert Next(env, missed, ReadExclusions(pid)).requests == excluded.requests;
    assert Next(env, excluded, RankCards(pid, id)).requests
        == s.requests[pid := Ranked(r.user, r.size, r.profile, x, id, env.rank(ContentOf(r.profile), x, r.size))];
  }

  /** Invalidation forgets every tracked slate of the user and nothing else. */
  lemma InvalidateForgets(env: Env, s: System, user: int, k: Key)
    ensures k in Next(env, s, Invalidate(user)).cache <==> k in s.cache && k !in Tracked(s, user)
    ensures k in Next(env, s, Invalidate(user)).cache ==> Next(env, s, Invalidate(user)).cache[k] == s.cache[k]
    ensures Tracked(Next(env, s, Invalidate(user)), user) == {}
  {}

  // ---- A rating is visible at once ----

  /** What a transaction leaves committed: the exclusions it computed, and the content it built, if it built one. */
  lemma CommittedRows(u: User, w: Write)
    ensures (w.RateDeferred? || w.RateInline? || w.CompleteOnboarding?) ==> Commit(u, w).excluded == w.excluded
    ensures (w.DeferredRecompute? || w.MergeNothing? || w.MergeSnapshot? || w.ClearOverlay?) ==>
              Commit(u, w).excluded == u.excluded
    ensures (w.RateInline? || w.DeferredRecompute? || w.CompleteOnboarding? || w.MergeSnapshot?) ==>
              ContentOf(Commit(u, w).profile) == Some(w.built)
    ensures w.ClearOverlay? && u.profile.Some? ==> ContentOf(Commit(u, w).profile) == Some(w.built)
    ensures (w.RateDeferred? || w.MergeNothing?) && u.profile.Some? ==>
              ContentOf(Commit(u, w).profile) == ContentOf(u.profile)
  {}

  /** A request that starts after a transaction changed the rows finds no entry under the new version, so it ranks with
      the new profile and the new exclusions, whatever was cached before. */
  lemma ChangeIsVisible(env: Env, users: map<int, User>, steps: seq<Step>, user: int, w: Write, pid: nat,
                        limit: Option<nat>, id: nat)
    requires ValidUsers(users)
    requires var s := Run(env, Initial(users), steps);
             user in s.users && pid !in s.requests && Commit(s.users[user], w) != s.users[user]
    ensures var s := Run(env, Initial(users), steps);
            var now := Commit(s.users[user], w);
            var t := Run(env, s, [CommitWrite(user, w), Begin(pid, user, limit), ReadProfile(pid)]);
            && pid in t.requests && t.requests[pid].GotProfile? && KeyOf(t.requests[pid]) !in t.cache
            && pid in Run(env, t, MissSteps(pid, id)).requests
            && Run(env, t, MissSteps(pid, id)).requests[pid]
               == Served(env.rank(ContentOf(now.profile), now.excluded, SlateSize(env, limit)), id, true)
  {
    var s := Run(env, Initial(users), steps);
    RunKeepsInv(env, Initial(users), steps);
    CommitRaises(s.users[user], w);
    ReadAfterChange(env, s, user, w, pid, limit);
    var t := Run(env, s, [CommitWrite(user, w), Begin(pid, user, limit), ReadProfile(pid)]);
    assert forall k | k in s.cache :: EntryFits(env, s, k);
    MissServesRanking(env, t, pid, id);
  }

  lemma ReadAfterChange(env: Env, s: System, user: int, w: Write, pid: nat, limit: Option<nat>)
    requires user in s.users && pid !in s.requests
    ensures var now := Commit(s.users[user], w);
            Run(env, s, [CommitWrite(user, w), Begin(pid, user, limit), ReadProfile(pid)])
            == s.(users := s.users[user := now],
                  requests := s.requests[pid := GotProfile(user, SlateSize(env, limit), now.profile)])
  {
    ThreeSteps(env, s, CommitWrite(user, w), Begin(pid, user, limit), ReadProfile(pid));
    var now := Commit(s.users[user], w);
    var written := s.(users := s.users[user := now]);
    assert Next(env, s, CommitWrite(user, w)) == written;
    var started := written.(requests := s.requests[pid := Started(user, SlateSize(env, limit))]);
    assert Next(env, written, Begin(pid, user, limit)) == started;
    assert Next(env, started, ReadProfile(pid)).requests
        == s.requests[pid := GotProfile(user, SlateSize(env, limit), now.profile)];
  }

  // ---- Titles that left the catalog ----

  /** A stored slate loses the cards whose titles are gone, keeps the others as often as it has them, and each in its
      place: what is shown of two halves is what is shown of the whole. */
  lemma {:induction false} HydrateMeaning(items: seq<Card>, catalog: set<int>, card: Card)
    ensures multiset(Hydrate(items, catalog))[card] == if card.title in catalog then multiset(items)[card] else 0
  {
    if items != [] {
      HydrateMeaning(items[..|items| - 1], catalog, card);
      assert items == items[..|items| - 1] + [items[|items| - 1]];
    }
  }

  lemma {:induction false} HydrateSplits(a: seq<Card>, b: seq<Card>, catalog: set<int>)
    ensures Hydrate(a + b, catalog) == Hydrate(a, catalog) + Hydrate(b, catalog)
  {
    if b == [] {
      assert a + b == a;
    } else {
      var last := |b| - 1;
      assert (a + b)[..|a + b| - 1] == a + b[..last];
      HydrateSplits(a, b[..last], catalog);
    }
  }
}
