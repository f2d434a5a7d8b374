/** Where session promises fail after all: reachable runs that show it, and exactly when they hold. */
module SessionLimits {
  import opened Basics
  import opened TokenFamilies

  /** No tokens and no reset links yet. */
  function Start(users: set<int>): Store {
    Store(map[], 0, 0, users, map[], 0)
  }

  lemma StartValid(users: set<int>)
    ensures Valid(Start(users))
  {}

  lemma RunAppend(s: Store, c: Config, calls: seq<Call>, call: Call)
    ensures Run(s, c, calls + [call]) == Request(Run(s, c, calls), c, call.op, call.at)
  {
    assert (calls + [call])[..|calls|] == calls;
  }

  /** One login, one rotation. */
  function RotatedOnce(user: int): seq<Call> {
    [Call(Login(user, true), 0), Call(Refresh(0), 1)]
  }

  /** After the login token 0 is live. */
  function LoggedIn(c: Config, users: set<int>, user: int): Store {
    Store(map[0 := Row(user, 0, c.ttl, None, None)], 1, 1, users, map[], 0)
  }

  /** After the rotation it is replaced by the live token 1 of the same family. */
  function Rotated(c: Config, users: set<int>, user: int): Store {
    Store(map[0 := Row(user, 0, c.ttl, Some(1), Some(1)), 1 := Row(user, 0, 1 + c.ttl, None, None)],
          2, 1, users, map[], 0)
  }

  lemma LoginOnce(c: Config, users: set<int>, user: int)
    requires user in users
    ensures Request(Start(users), c, Login(user, true), 0) == LoggedIn(c, users, user)
  {}

  lemma RotateOnce(c: Config, users: set<int>, user: int)
    requires user in users && c.ttl >= 1
    ensures Request(LoggedIn(c, users, user), c, Refresh(0), 1) == Rotated(c, users, user)
  {
    assert RefreshStep(LoggedIn(c, users, user), c, 0, 1).1.rows == Rotated(c, users, user).rows;
  }

  lemma AfterRotation(c: Config, users: set<int>, user: int)
    requires user in users && c.ttl >= 1
    ensures Run(Start(users), c, RotatedOnce(user)) == Rotated(c, users, user)
  {
    var s, login, refresh := Start(users), Call(Login(user, true), 0), Call(Refresh(0), 1);
    assert Run(s, c, []) == s;
    assert [] + [login] == [login] && [login] + [refresh] == RotatedOnce(user);
    RunAppend(s, c, [], login);
    RunAppend(s, c, [login], refresh);
    LoginOnce(c, users, user);
    RotateOnce(c, users, user);
  }

  /** Token 0 presented again once the grace period is over: reuse is detected, and the family lives on. */
  lemma ReuseLeavesFamilyAlive(c: Config, users: set<int>, user: int)
    requires user in users && c.ttl >= 1
    ensures var s := Run(Start(users), c, RotatedOnce(user));
            var late := 2 + c.grace;
            && Step(s, c, Refresh(0), late).0 == Reused(0, user)
            && Run(Start(users), c, RotatedOnce(user) + [Call(Refresh(0), late)]) == s
            && Valid(s) && !Dead(s, 0) && 1 in Live(s, 0)
  {
    StartValid(users);
    RunEvolves(Start(users), c, RotatedOnce(user));
    AfterRotation(c, users, user);
    RunAppend(Start(users), c, RotatedOnce(user), Call(Refresh(0), 2 + c.grace));
    var s := Run(Start(users), c, RotatedOnce(user));
    assert 1 in s.rows && s.rows[1].family == 0 && s.rows[1].revokedAt.None?;
  }

  /** Corollary: detected reuse ends the family in the committed store exactly when the family was dead before. */
  lemma ReuseCommitsDeathIff(s: Store, c: Config, token: nat, now: int)
    requires Valid(s) && RefreshStep(s, c, token, now).0.Reused?
    ensures Dead(RefreshStep(s, c, token, now).1, s.rows[token].family)
    ensures Dead(Request(s, c, Refresh(token), now), s.rows[token].family) <==> Dead(s, s.rows[token].family)
  {
    ReuseInSessionAndCommitted(s, c, token, now);
  }

  /** The same login and rotation, then a password reset at once. */
  function ResetAfterRotation(user: int): seq<Call> {
    RotatedOnce(user) + [Call(AskReset(user, Sent), 1)] + [Call(Reset(0), 1)]
  }

  lemma AfterReset(c: Config, users: set<int>, user: int)
    requires user in users && c.ttl >= 1 && c.resetTtl >= 0
    ensures var s := Run(Start(users), c, ResetAfterRotation(user));
            && s.users == users && s.next == 2 && s.rows.Keys == {0, 1}
            && s.rows[0] == Row(user, 0, c.ttl, Some(1), Some(1))
            && s.rows[1] == Row(user, 0, 1 + c.ttl, Some(1), None)
  {
    var rotated, ask, reset := RotatedOnce(user), Call(AskReset(user, Sent), 1), Call(Reset(0), 1);
    AfterRotation(c, users, user);
    RunAppend(Start(users), c, rotated, ask);
    RunAppend(Start(users), c, rotated + [ask], reset);
    AskAndReset(c, users, user);
  }

  lemma AskAndReset(c: Config, users: set<int>, user: int)
    requires user in users && c.ttl >= 1 && c.resetTtl >= 0
    ensures var s := Request(Request(Rotated(c, users, user), c, AskReset(user, Sent), 1), c, Reset(0), 1);
            && s.users == users && s.next == 2 && s.rows.Keys == {0, 1}
            && s.rows[0] == Row(user, 0, c.ttl, Some(1), Some(1))
            && s.rows[1] == Row(user, 0, 1 + c.ttl, Some(1), None)
  {
    var asked := Request(Rotated(c, users, user), c, AskReset(user, Sent), 1);
    assert asked.resets == map[0 := ResetRow(user, 1 + c.resetTtl, None)];
    assert Step(asked, c, Reset(0), 1).0 == Done;
  }

  /** The reset kills the family, and one refresh with the rotated token brings it back while the grace period lasts. */
  lemma ResetUndoneWithinGrace(c: Config, users: set<int>, user: int)
    requires user in users && c.ttl >= 1 && c.resetTtl >= 0 && c.grace >= 1
    ensures Dead(Run(Start(users), c, ResetAfterRotation(user)), 0)
    ensures var after := Run(Start(users), c, ResetAfterRotation(user) + [Call(Refresh(0), 2)]);
            !Dead(after, 0) && 2 in Live(after, 0)
  {
    AfterReset(c, users, user);
    RunAppend(Start(users), c, ResetAfterRotation(user), Call(Refresh(0), 2));
    var s := Run(Start(users), c, ResetAfterRotation(user));
    assert Step(s, c, Refresh(0), 2).0 == Sibling(2);
    var after := Request(s, c, Refresh(0), 2);
    assert 2 in after.rows && after.rows[2].family == 0 && after.rows[2].revokedAt.None?;
  }

  /** Corollary: a reset mail that cannot be sent raises, so the retired links of the user work again and no new one
      is kept. */
  lemma FailedMailKeepsLinks(s: Store, c: Config, user: int, now: int)
    requires user in s.users
    ensures s.nextReset in AskResetStep(s, c, user, NotSent, now).1.resets
    ensures Request(s, c, AskReset(user, NotSent), now) == s
  {
    assert s.nextReset in AskResetStep(s, c, user, NotSent, now).1.resets;
  }
}
