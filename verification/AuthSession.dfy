/** The service object that updates stored token rows (auth_service.py), refining the token-family machine. */
module AuthSession {
  import opened Basics
  import opened TokenFamilies

  class AuthService {
    const config: Config
    var rows: map<nat, Row>
    var next: nat
    var nextFamily: nat
    var users: set<int>
    var resets: map<nat, ResetRow>
    var nextReset: nat

    ghost function State(): Store
      reads this
    {
      Store(rows, next, nextFamily, users, resets, nextReset)
    }

    constructor (config: Config, users: set<int>)
      ensures this.config == config && State() == Store(map[], 0, 0, users, map[], 0)
      ensures TokenFamilies.Valid(State())
    {
      this.config := config;
      this.users := users;
      rows, next, nextFamily, resets, nextReset := map[], 0, 0, map[], 0;
    }

    /** Insert a fresh token row; the family is new unless one is given. */
    method IssueTokens(user: int, family: Option<nat>, now: int) returns (id: nat)
      modifies this`rows, this`next, this`nextFamily
      ensures id == old(next)
      ensures family.Some? ==> State() == Issue(old(State()), config, user, family.value, now)
      ensures family.None? ==>
                State() == Issue(old(State()).(nextFamily := old(nextFamily) + 1), config, user, old(nextFamily), now)
    {
      id := next;
      var f: nat;
      if family.Some? {
        f := family.value;
      } else {
        f := nextFamily;
        nextFamily := nextFamily + 1;
      }
      rows := rows[id := Row(user, f, now + config.ttl, None, None)];
      next := next + 1;
    }

    /** Revoke every live token of one family of one user. */
    method RevokeFamilyRows(family: nat, user: int, now: int)
      modifies this`rows
      ensures State() == RevokeFamily(old(State()), family, user, now)
    {
      rows := map id | id in rows ::
        if rows[id].family == family && rows[id].user == user && rows[id].revokedAt.None?
        then rows[id].(revokedAt := Some(now)) else rows[id];
      assert rows == RevokeFamily(old(State()), family, user, now).rows;
    }

    /** `allowed` is the throttle's answer and `matches` the password check. */
    method SignIn(user: int, allowed: bool, matches: bool, now: int) returns (outcome: Outcome)
      modifies this`rows, this`next, this`nextFamily
      ensures (outcome, State()) == Step(old(State()), config, Op.Login(user, allowed && matches), now)
    {
      if !allowed || user !in users || !matches {
        return BadCredentials;
      }
      var id := IssueTokens(user, None, now);
      outcome := Issued(id);
    }

    method Refresh(token: nat, now: int) returns (outcome: Outcome)
      requires TokenFamilies.Valid(State())
      modifies this`rows, this`next, this`nextFamily
      ensures (outcome, State()) == Step(old(State()), config, Op.Refresh(token), now)
      ensures TokenFamilies.Valid(State()) && Evolves(old(State()), State())
    {
      StepValid(State(), config, Op.Refresh(token), now);
      StepEvolves(State(), config, Op.Refresh(token), now);
      if token !in rows {
        return InvalidToken;
      }
      var stored := rows[token];
      if stored.revokedAt.Some? {
        var justRotated := stored.replacedBy.Some? && now - stored.revokedAt.value <= config.grace;
        if justRotated {
          if stored.user !in users {
            return UserMissing;
          }
          var sibling := IssueTokens(stored.user, Some(stored.family), now);
          return Sibling(sibling);
        }
        RevokeFamilyRows(stored.family, stored.user, now);
        return Reused(stored.family, stored.user);
      }
      if stored.expires < now {
        return Expired;
      }
      if stored.user !in users {
        return UserMissing;
      }
      var id := IssueTokens(stored.user, Some(stored.family), now);
      rows := rows[token := stored.(revokedAt := Some(now), replacedBy := Some(id))];
      outcome := Issued(id);
    }

    method SignOut(token: nat, now: int) returns (outcome: Outcome)
      modifies this`rows
      ensures (outcome, State()) == Step(old(State()), config, Op.Logout(token), now)
    {
      if token in rows && rows[token].revokedAt.None? {
        rows := rows[token := rows[token].(revokedAt := Some(now))];
      }
      outcome := Done;
      assert rows == LogoutStep(old(State()), token, now).1.rows;
    }

    /** Retire the user's unused reset links, store a new one and mail it; when mailing fails the request raises. */
    method RequestPasswordReset(user: int, mail: Mail, now: int) returns (outcome: Outcome)
      modifies this`resets, this`nextReset
      ensures (outcome, State()) == Step(old(State()), config, Op.AskReset(user, mail), now)
    {
      if mail.HeldBack? {
        return ResetUnavailable;
      }
      outcome := Done;
      if user in users {
        outcome := if mail.Sent? then Done else MailFailed;
        resets := map id | id in resets ::
          if resets[id].user == user && resets[id].usedAt.None? then resets[id].(usedAt := Some(now)) else resets[id];
        assert resets == RetireLinks(old(resets), user, now);
        resets := resets[nextReset := ResetRow(user, now + config.resetTtl, None)];
        nextReset := nextReset + 1;
      }
    }

    /** Spend a reset link and revoke every live token of its user. */
    method ResetPassword(reset: nat, now: int) returns (outcome: Outcome)
      modifies this`rows, this`resets
      ensures (outcome, State()) == Step(old(State()), config, Op.Reset(reset), now)
    {
      if reset !in resets || resets[reset].usedAt.Some? {
        return InvalidReset;
      }
      var stored := resets[reset];
      if stored.expires < now || stored.user !in users {
        return InvalidReset;
      }
      resets := resets[reset := stored.(usedAt := Some(now))];
      rows := map id | id in rows ::
        if rows[id].user == stored.user && rows[id].revokedAt.None?
        then rows[id].(revokedAt := Some(now)) else rows[id];
      outcome := Done;
      assert rows == ResetStep(old(State()), reset, now).1.rows;
    }
  }
}
