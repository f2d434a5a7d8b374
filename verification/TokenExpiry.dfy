/** What each request does to one token or link, and when tokens and links stop working (auth_service.py). */
module TokenExpiry {
  import opened Basics
  import opened TokenFamilies
  import opened SessionLimits

  // ---- Refresh ----

  /** A live token of a known user is exchanged up to and including its expiry, and refused afterwards for good. */
  lemma LiveRefreshIff(s: Store, c: Config, token: nat, now: int)
    requires Valid(s) && token in s.rows && s.rows[token].revokedAt.None?
    ensures var (outcome, after) := Step(s, c, Refresh(token), now);
            && (outcome == Issued(s.next) <==> now <= s.rows[token].expires)
            && (outcome == Expired <==> now > s.rows[token].expires)
            && (now > s.rows[token].expires ==> after == s && Request(s, c, Refresh(token), now) == s)
  {}

  /** The successor is live, of the same family and user, and lives for the configured time from now on. */
  lemma LiveRefreshIssues(s: Store, c: Config, token: nat, now: int)
    requires Valid(s) && token in s.rows && s.rows[token].revokedAt.None? && now <= s.rows[token].expires
    ensures var after, r := Request(s, c, Refresh(token), now), s.rows[token];
            && s.next in after.rows && after.rows[s.next] == Row(r.user, r.family, now + c.ttl, None, None)
            && token in after.rows && after.rows[token].revokedAt == Some(now) && after.rows[token].expires == r.expires
            && after.rows[token].replacedBy == Some(s.next)
  {}

  /** A revoked token gets a sibling exactly when it was rotated, not merely revoked, at most the grace period ago, and
      any other revoked token is reported as reused. */
  lemma RevokedRefreshIff(s: Store, c: Config, token: nat, now: int)
    requires Valid(s) && token in s.rows && s.rows[token].revokedAt.Some?
    ensures var outcome, r := Step(s, c, Refresh(token), now).0, s.rows[token];
            && (outcome == Sibling(s.next)
                <==> r.replacedBy.Some? && now <= r.revokedAt.value + c.grace)
            && (outcome == Reused(r.family, r.user)
                <==> r.replacedBy.None? || now > r.revokedAt.value + c.grace)
  {}

  // ---- What every reachable store satisfies ----

  /** No token was ever rotated after its expiry. */
  ghost predicate RotatedInTime(s: Store) {
    forall id | id in s.rows && s.rows[id].replacedBy.Some? ::
      s.rows[id].revokedAt.Some? && s.rows[id].revokedAt.value <= s.rows[id].expires
  }

  /** Call n of the run created the token, which expires the configured time later. */
  ghost predicate CreatedAt(s: Store, c: Config, calls: seq<Call>, id: nat, n: nat) {
    && n < |calls|
    && id !in Run(s, c, calls[..n]).rows && id in Run(s, c, calls[..n + 1]).rows
    && id in Run(s, c, calls).rows && Run(s, c, calls).rows[id].expires == calls[n].at + c.ttl
  }

  lemma StepRotatesInTime(s: Store, c: Config, op: Op, now: int)
    requires Valid(s) && RotatedInTime(s)
    ensures RotatedInTime(Request(s, c, op, now))
  {
    match op
    case Login(_, _) =>
    case Refresh(token) => RefreshRotatesInTime(s, c, token, now);
    case Logout(_) =>
    case AskReset(_, _) =>
    case Reset(reset) => ResetRotatesInTime(s, c, reset, now);
  }

  lemma RefreshRotatesInTime(s: Store, c: Config, token: nat, now: int)
    requires Valid(s) && RotatedInTime(s)
    ensures RotatedInTime(Request(s, c, Refresh(token), now))
  {}

  lemma ResetRotatesInTime(s: Store, c: Config, reset: nat, now: int)
    requires Valid(s) && RotatedInTime(s)
    ensures RotatedInTime(Request(s, c, Reset(reset), now))
  {}

  lemma {:induction false} RunRotatesInTime(users: set<int>, c: Config, calls: seq<Call>)
    ensures Valid(Run(Start(users), c, calls)) && RotatedInTime(Run(Start(users), c, calls))
  {
    StartValid(users);
    RunEvolves(Start(users), c, calls);
    if calls != [] {
      var front, last := calls[..|calls| - 1], calls[|calls| - 1];
      RunRotatesInTime(users, c, front);
      StepRotatesInTime(Run(Start(users), c, front), c, last.op, last.at);
    }
  }

  /** A request gives the rows it adds the configured lifetime and leaves every other expiry as it was. */
  lemma StepStamps(s: Store, c: Config, op: Op, now: int, id: nat)
    requires Valid(s) && id in Request(s, c, op, now).rows
    ensures Request(s, c, op, now).rows[id].expires == if id in s.rows then s.rows[id].expires else now + c.ttl
  {
    if id in s.rows {
      StepEvolves(s, c, op, now);
    }
  }

  lemma CreationCarries(s: Store, c: Config, front: seq<Call>, last: Call, id: nat, n: nat)
    requires CreatedAt(s, c, front, id, n)
    requires id in Run(s, c, front + [last]).rows
    requires Run(s, c, front + [last]).rows[id].expires == Run(s, c, front).rows[id].expires
    ensures CreatedAt(s, c, front + [last], id, n)
  {
    assert front[..n] == (front + [last])[..n] && front[..n + 1] == (front + [last])[..n + 1];
  }

  lemma CreatedNow(s: Store, c: Config, front: seq<Call>, last: Call, id: nat)
    requires id !in Run(s, c, front).rows && id in Run(s, c, front + [last]).rows
    requires Run(s, c, front + [last]).rows[id].expires == last.at + c.ttl
    ensures CreatedAt(s, c, front + [last], id, |front|)
  {
    var calls := front + [last];
    assert calls[..|front|] == front && calls[..|front| + 1] == calls && calls[|front|] == last;
  }

  lemma LastCall(s: Store, c: Config, front: seq<Call>, last: Call)
    ensures Run(s, c, front + [last]) == Request(Run(s, c, front), c, last.op, last.at)
  {
    assert (front + [last])[..|front|] == front;
  }

  lemma LastStamps(users: set<int>, c: Config, front: seq<Call>, last: Call, id: nat)
    requires id in Run(Start(users), c, front + [last]).rows
    ensures var before := Run(Start(users), c, front);
            Run(Start(users), c, front + [last]).rows[id].expires
            == if id in before.rows then before.rows[id].expires else last.at + c.ttl
  {
    LastCall(Start(users), c, front, last);
    RunRotatesInTime(users, c, front);
    StepStamps(Run(Start(users), c, front), c, last.op, last.at, id);
  }

  /** Over every run from an empty store, every token expires the configured time after the request that created it. */
  lemma {:induction false} TokenCreated(users: set<int>, c: Config, calls: seq<Call>, id: nat) returns (n: nat)
    requires id in Run(Start(users), c, calls).rows
    ensures CreatedAt(Start(users), c, calls, id, n)
  {
    var front, last := calls[..|calls| - 1], calls[|calls| - 1];
    assert calls == front + [last];
    LastStamps(users, c, front, last, id);
    if id in Run(Start(users), c, front).rows {
      n := TokenCreated(users, c, front, id);
      CreationCarries(Start(users), c, front, last, id, n);
    } else {
      n := |front|;
      CreatedNow(Start(users), c, front, last, id);
    }
  }

  /** So in any run no request presenting a token is answered with a new one later than the token's expiry, or, for a
      token already rotated, later than the grace period after it. */
  lemma NothingIssuedAfterExpiry(users: set<int>, c: Config, calls: seq<Call>, token: nat, now: int)
    requires token in Run(Start(users), c, calls).rows
    ensures var s := Run(Start(users), c, calls);
            var outcome := Step(s, c, Refresh(token), now).0;
            && (outcome.Issued? ==> now <= s.rows[token].expires)
            && (outcome.Sibling? ==> now <= s.rows[token].expires + c.grace)
  {
    RunRotatesInTime(users, c, calls);
  }

  /** The default lifetime of 30 days: one second later the token of a login is refused. */
  lemma ExpiredLoginRefused(user: int)
    ensures var c := Config(10, 2592000, 1800);
            var s := Request(Start({user}), c, Login(user, true), 0);
            && Step(s, c, Refresh(0), 2592000).0 == Issued(1)
            && Step(s, c, Refresh(0), 2592001).0 == Expired
  {}

  // ---- Reset links ----

  /** A link works exactly once, for a known user, up to and including its expiry. */
  lemma ResetWorksIff(s: Store, c: Config, reset: nat, now: int)
    ensures var (outcome, after) := Step(s, c, Reset(reset), now);
            && (outcome == Done
                <==> reset in s.resets && s.resets[reset].usedAt.None? && now <= s.resets[reset].expires
                     && s.resets[reset].user in s.users)
            && (outcome != Done ==> outcome == InvalidReset && after == s)
  {}

  lemma StepStampsLinks(s: Store, c: Config, op: Op, now: int, id: nat)
    requires Valid(s) && id in Request(s, c, op, now).resets
    ensures Request(s, c, op, now).resets[id].expires
            == if id in s.resets then s.resets[id].expires else now + c.resetTtl
  {}

  ghost predicate LinkCreatedAt(s: Store, c: Config, calls: seq<Call>, id: nat, n: nat) {
    && n < |calls|
    && id !in Run(s, c, calls[..n]).resets && id in Run(s, c, calls[..n + 1]).resets
    && id in Run(s, c, calls).resets && Run(s, c, calls).resets[id].expires == calls[n].at + c.resetTtl
  }

  lemma LastStampsLinks(users: set<int>, c: Config, front: seq<Call>, last: Call, id: nat)
    requires id in Run(Start(users), c, front + [last]).resets
    ensures var before := Run(Start(users), c, front);
            Run(Start(users), c, front + [last]).resets[id].expires
            == if id in before.resets then before.resets[id].expires else last.at + c.resetTtl
  {
    LastCall(Start(users), c, front, last);
    RunRotatesInTime(users, c, front);
    StepStampsLinks(Run(Start(users), c, front), c, last.op, last.at, id);
  }

  lemma LinkCarries(s: Store, c: Config, front: seq<Call>, last: Call, id: nat, n: nat)
    requires LinkCreatedAt(s, c, front, id, n)
    requires id in Run(s, c, front + [last]).resets
    requires Run(s, c, front + [last]).resets[id].expires == Run(s, c, front).resets[id].expires
    ensures LinkCreatedAt(s, c, front + [last], id, n)
  {
    assert front[..n] == (front + [last])[..n] && front[..n + 1] == (front + [last])[..n + 1];
  }

  /** Every link expires its configured time after the request that created it. */
  lemma {:induction false} LinkCreated(users: set<int>, c: Config, calls: seq<Call>, id: nat) returns (n: nat)
    requires id in Run(Start(users), c, calls).resets
    ensures LinkCreatedAt(Start(users), c, calls, id, n)
  {
    var front, last := calls[..|calls| - 1], calls[|calls| - 1];
    assert calls == front + [last];
    LastStampsLinks(users, c, front, last, id);
    if id in Run(Start(users), c, front).resets {
      n := LinkCreated(users, c, front, id);
      LinkCarries(Start(users), c, front, last, id, n);
    } else {
      n := |front|;
      assert calls[..n + 1] == calls;
    }
  }

  /** A mailed link works for its user until it expires, and revokes every token the user holds. */
  lemma MailedLinkWorks(s: Store, c: Config, user: int, asked: int, now: int)
    requires Valid(s) && user in s.users && now <= asked + c.resetTtl
    ensures var mailed := Request(s, c, AskReset(user, Sent), asked);
            && Step(mailed, c, Reset(s.nextReset), now).0 == Done
            && forall id | id in s.rows && s.rows[id].user == user ::
                 var after := Request(mailed, c, Reset(s.nextReset), now);
                 id in after.rows && after.rows[id].revokedAt.Some?
  {}

  // ---- Signing in and out ----

  /** The right password of a known user opens a family nobody uses yet with one live token; anything else is refused
      and changes nothing. */
  lemma LoginMeaning(s: Store, c: Config, user: int, accepted: bool, now: int)
    requires Valid(s)
    ensures var (outcome, after) := Step(s, c, Login(user, accepted), now);
            && (user in s.users && accepted ==>
                  && outcome == Issued(s.next) && s.next !in s.rows && s.next in after.rows
                  && after.rows[s.next] == Row(user, after.rows[s.next].family, now + c.ttl, None, None)
                  && (forall id | id in s.rows :: s.rows[id].family != after.rows[s.next].family)
                  && (forall id | id in after.rows && id != s.next :: id in s.rows && after.rows[id] == s.rows[id])
                  && (forall id | id in s.rows :: id in after.rows))
            && (user !in s.users || !accepted ==> outcome == BadCredentials && after == s)
  {}

  /** Signing out revokes the token presented and no other; an unknown or dead token changes nothing. */
  lemma LogoutMeaning(s: Store, c: Config, token: nat, now: int)
    ensures var after := Request(s, c, Logout(token), now);
            && (token in s.rows && s.rows[token].revokedAt.None? ==>
                  && token in after.rows
                  && after.rows[token] == s.rows[token].(revokedAt := Some(now))
                  && after.rows[token].replacedBy == s.rows[token].replacedBy)
            && (token !in s.rows || s.rows[token].revokedAt.Some? ==> after == s)
            && (forall id | id in s.rows && id != token :: id in after.rows && after.rows[id] == s.rows[id])
  {}

  /** Asking for a reset leaves a known user with exactly the new link unused, other users' links untouched, and gives
      an unknown user the same answer. */
  lemma AskResetMeaning(s: Store, c: Config, user: int, now: int, id: nat)
    requires Valid(s)
    ensures var (outcome, after) := Step(s, c, AskReset(user, Sent), now);
            && outcome == Done
            && (user !in s.users ==> after == s)
            && (user in s.users && id in after.resets ==>
                  && (after.resets[id].user == user && after.resets[id].usedAt.None? <==> id == s.nextReset)
                  && (id in s.resets && s.resets[id].user != user ==> after.resets[id] == s.resets[id]))
            && after.rows == s.rows
  {}

  /** A reset request that is held back, or whose mail cannot be sent, raises, and nothing of it is committed. */
  lemma UnsentLinkForgotten(s: Store, c: Config, user: int, mail: Mail, now: int)
    requires mail != Sent
    ensures Request(s, c, AskReset(user, mail), now) == s
    ensures user in s.users || mail == HeldBack ==> Step(s, c, AskReset(user, mail), now).0.Raised()
  {}
}
