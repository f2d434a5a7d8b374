/** Refresh-token families as a state machine: rotation, grace siblings, logout, reset, reuse detection
    (auth_service.py). Times are instants on one clock; a presented token is named by its row. */
module TokenFamilies {
  import opened Basics

  datatype Row = Row(user: int, family: nat, expires: int, revokedAt: Option<int>, replacedBy: Option<nat>)

  datatype ResetRow = ResetRow(user: int, expires: int, usedAt: Option<int>)

  /** `next`, `nextFamily` and `nextReset` stand for fresh UUIDs. */
  datatype Store = Store(rows: map<nat, Row>, next: nat, nextFamily: nat, users: set<int>,
                         resets: map<nat, ResetRow>, nextReset: nat)

  datatype Config = Config(grace: nat, ttl: int, resetTtl: int)

  datatype Outcome =
    | Issued(token: nat)
    | Sibling(token: nat)
    | Done
    | InvalidToken
    | Reused(family: nat, user: int)
    | Expired
    | UserMissing
    | BadCredentials
    | InvalidReset
    | ResetUnavailable
    | MailFailed
  {
    /** The service method ended in an exception. */
    predicate Raised() {
      !Issued? && !Sibling? && !Done?
    }
  }

  /** How far a reset request gets: held back by the throttle or a missing mail server, or sending works or fails. */
  datatype Mail = HeldBack | Sent | NotSent

  /** `accepted` says that the throttle let the login through and the password matched. */
  datatype Op =
    | Login(user: int, accepted: bool)
    | Refresh(token: nat)
    | Logout(token: nat)
    | AskReset(asker: int, mail: Mail)
    | Reset(reset: nat)

  // ---- Service methods on values ----

  function Issue(s: Store, c: Config, user: int, family: nat, now: int): Store {
    s.(rows := s.rows[s.next := Row(user, family, now + c.ttl, None, None)], next := s.next + 1)
  }

  /** A token rotated no longer than the grace period ago. */
  predicate JustRotated(r: Row, c: Config, now: int) {
    r.revokedAt.Some? && r.replacedBy.Some? && now - r.revokedAt.value <= c.grace
  }

  function Revoke(r: Row, now: int): Row {
    if r.revokedAt.None? then r.(revokedAt := Some(now)) else r
  }

  function RevokeFamily(s: Store, family: nat, user: int, now: int): Store {
    s.(rows := map id | id in s.rows ::
         if s.rows[id].family == family && s.rows[id].user == user then Revoke(s.rows[id], now) else s.rows[id])
  }

  function RevokeUser(s: Store, user: int, now: int): Store {
    s.(rows := map id | id in s.rows :: if s.rows[id].user == user then Revoke(s.rows[id], now) else s.rows[id])
  }

  function LoginStep(s: Store, c: Config, user: int, accepted: bool, now: int): (Outcome, Store) {
    if user !in s.users || !accepted then (BadCredentials, s)
    else (Issued(s.next), Issue(s.(nextFamily := s.nextFamily + 1), c, user, s.nextFamily, now))
  }

  function RefreshStep(s: Store, c: Config, token: nat, now: int): (Outcome, Store) {
    if token !in s.rows then (InvalidToken, s)
    else
      var r := s.rows[token];
      if r.revokedAt.Some? then
        if JustRotated(r, c, now) then
          if r.user !in s.users then (UserMissing, s)
          else (Sibling(s.next), Issue(s, c, r.user, r.family, now))
        else (Reused(r.family, r.user), RevokeFamily(s, r.family, r.user, now))
      else if r.expires < now then (Expired, s)
      else if r.user !in s.users then (UserMissing, s)
      else
        var issued := Issue(s, c, r.user, r.family, now);
        (Issued(s.next),
         issued.(rows := issued.rows[token := r.(revokedAt := Some(now), replacedBy := Some(s.next))]))
  }

  function LogoutStep(s: Store, token: nat, now: int): (Outcome, Store) {
    if token in s.rows then (Done, s.(rows := s.rows[token := Revoke(s.rows[token], now)])) else (Done, s)
  }

  function RetireLinks(resets: map<nat, ResetRow>, user: int, now: int): map<nat, ResetRow> {
    map id | id in resets ::
      if resets[id].user == user && resets[id].usedAt.None? then resets[id].(usedAt := Some(now)) else resets[id]
  }

  /** A new reset link retires the user's earlier unused ones; an unknown address is answered alike. */
  function AskResetStep(s: Store, c: Config, user: int, mail: Mail, now: int): (Outcome, Store) {
    if mail.HeldBack? then (ResetUnavailable, s)
    else if user !in s.users then (Done, s)
    else
      var link := ResetRow(user, now + c.resetTtl, None);
      (if mail.Sent? then Done else MailFailed,
       s.(resets := RetireLinks(s.resets, user, now)[s.nextReset := link], nextReset := s.nextReset + 1))
  }

  function ResetStep(s: Store, reset: nat, now: int): (Outcome, Store) {
    if reset !in s.resets || s.resets[reset].usedAt.Some? || s.resets[reset].expires < now
       || s.resets[reset].user !in s.users
    then (InvalidReset, s)
    else
      var spent := s.(resets := s.resets[reset := s.resets[reset].(usedAt := Some(now))]);
      (Done, RevokeUser(spent, s.resets[reset].user, now))
  }

  function Step(s: Store, c: Config, op: Op, now: int): (Outcome, Store) {
    match op
    case Login(user, accepted) => LoginStep(s, c, user, accepted, now)
    case Refresh(token) => RefreshStep(s, c, token, now)
    case Logout(token) => LogoutStep(s, token, now)
    case AskReset(user, mail) => AskResetStep(s, c, user, mail, now)
    case Reset(reset) => ResetStep(s, reset, now)
  }

  /** One request: the session commits only when the handler returns, and rolls back when it raises. */
  function Request(s: Store, c: Config, op: Op, now: int): Store {
    var (outcome, after) := Step(s, c, op, now);
    if outcome.Raised() then s else after
  }

  datatype Call = Call(op: Op, at: int)

  /** The committed store after a whole run of requests. */
  function Run(s: Store, c: Config, calls: seq<Call>): Store {
    if calls == [] then s
    else
      var last := calls[|calls| - 1];
      Request(Run(s, c, calls[..|calls| - 1]), c, last.op, last.at)
  }

  // ---- What every store satisfies ----

  ghost predicate Valid(s: Store) {
    Numbered(s) && Linked(s) && OneToOne(s) && OneOwner(s)
  }

  /** Every row and link has an earlier number, and every row belongs to a user. */
  ghost predicate Numbered(s: Store) {
    && (forall id | id in s.rows :: id < s.next && s.rows[id].family < s.nextFamily && s.rows[id].user in s.users)
    && (forall id | id in s.resets :: id < s.nextReset)
  }

  ghost predicate Linked(s: Store) {
    forall id | id in s.rows && s.rows[id].replacedBy.Some? :: Successor(s, id, s.rows[id].replacedBy.value)
  }

  /** No two tokens have the same successor. */
  ghost predicate OneToOne(s: Store) {
    forall a, b | a in s.rows && b in s.rows && s.rows[a].replacedBy.Some?
                  && s.rows[a].replacedBy == s.rows[b].replacedBy :: a == b
  }

  ghost predicate OneOwner(s: Store) {
    forall a, b | a in s.rows && b in s.rows && s.rows[a].family == s.rows[b].family ::
      s.rows[a].user == s.rows[b].user
  }

  /** A rotated token is revoked, and its successor is newer and in the same family of the same user. */
  ghost predicate Successor(s: Store, id: nat, succ: nat)
    requires id in s.rows
  {
    && succ in s.rows
    && id < succ
    && s.rows[id].revokedAt.Some?
    && s.rows[succ].family == s.rows[id].family
    && s.rows[succ].user == s.rows[id].user
  }

  lemma IssueValid(s: Store, c: Config, user: int, family: nat, now: int)
    requires Valid(s) && user in s.users && family < s.nextFamily
    requires forall id | id in s.rows && s.rows[id].family == family :: s.rows[id].user == user
    ensures Valid(Issue(s, c, user, family, now))
  {
    IssueLinked(s, c, user, family, now);
    assert OneToOne(Issue(s, c, user, family, now));
    IssueOneOwner(s, c, user, family, now);
  }

  lemma IssueLinked(s: Store, c: Config, user: int, family: nat, now: int)
    requires Numbered(s) && Linked(s)
    ensures Linked(Issue(s, c, user, family, now))
  {
    var t := Issue(s, c, user, family, now);
    forall id | id in t.rows && t.rows[id].replacedBy.Some?
      ensures Successor(t, id, t.rows[id].replacedBy.value)
    {
      assert Successor(s, id, s.rows[id].replacedBy.value);
    }
  }

  lemma IssueOneOwner(s: Store, c: Config, user: int, family: nat, now: int)
    requires Numbered(s) && OneOwner(s)
    requires forall id | id in s.rows && s.rows[id].family == family :: s.rows[id].user == user
    ensures OneOwner(Issue(s, c, user, family, now))
  {}

  ghost predicate SameLink(r: Row, r': Row) {
    && r'.user == r.user && r'.family == r.family && r'.replacedBy == r.replacedBy
    && (r.revokedAt.Some? ==> r'.revokedAt.Some?)
  }

  /** Revoking any selection of rows keeps the store valid. */
  lemma RevokedValid(s: Store, t: Store, now: int)
    requires Valid(s)
    requires t == s.(rows := t.rows, resets := t.resets) && t.rows.Keys == s.rows.Keys && t.resets.Keys == s.resets.Keys
    requires forall id | id in s.rows :: t.rows[id] == s.rows[id] || t.rows[id] == Revoke(s.rows[id], now)
    ensures Valid(t)
  {
    assert forall id | id in t.rows :: SameLink(s.rows[id], t.rows[id]);
    forall id | id in t.rows && t.rows[id].replacedBy.Some?
      ensures Successor(t, id, t.rows[id].replacedBy.value)
    {
      assert Successor(s, id, s.rows[id].replacedBy.value);
    }
  }

  /** Pointing a live token at the row just issued keeps the store valid. */
  lemma RotatedValid(s: Store, token: nat, succ: nat, now: int)
    requires Valid(s) && token in s.rows && s.rows[token].revokedAt.None? && s.rows[token].replacedBy.None?
    requires succ in s.rows && token < succ && s.rows[succ].family == s.rows[token].family
    requires s.rows[succ].user == s.rows[token].user
    requires forall id | id in s.rows :: s.rows[id].replacedBy != Some(succ)
    ensures Valid(Pointed(s, token, succ, now))
  {
    var t := Pointed(s, token, succ, now);
    RotatedLinked(s, token, succ, now);
    assert Numbered(t) && OneOwner(t);
    RotatedOneToOne(s, token, succ, now);
  }

  function Pointed(s: Store, token: nat, succ: nat, now: int): Store
    requires token in s.rows
  {
    s.(rows := s.rows[token := s.rows[token].(revokedAt := Some(now), replacedBy := Some(succ))])
  }

  lemma RotatedLinked(s: Store, token: nat, succ: nat, now: int)
    requires Linked(s) && token in s.rows && succ in s.rows && token < succ
    requires s.rows[succ].family == s.rows[token].family && s.rows[succ].user == s.rows[token].user
    ensures Linked(Pointed(s, token, succ, now))
  {
    var t := Pointed(s, token, succ, now);
    forall id | id in t.rows && t.rows[id].replacedBy.Some?
      ensures Successor(t, id, t.rows[id].replacedBy.value)
    {
      if id != token {
        assert Successor(s, id, s.rows[id].replacedBy.value);
      }
    }
  }

  lemma RotatedOneToOne(s: Store, token: nat, succ: nat, now: int)
    requires OneToOne(s) && token in s.rows && forall id | id in s.rows :: s.rows[id].replacedBy != Some(succ)
    ensures OneToOne(Pointed(s, token, succ, now))
  {}

  lemma RefreshValid(s: Store, c: Config, token: nat, now: int)
    requires Valid(s)
    ensures Valid(RefreshStep(s, c, token, now).1)
  {
    var (outcome, after) := RefreshStep(s, c, token, now);
    if outcome.Reused? {
      RevokedValid(s, after, now);
    } else if outcome.Sibling? {
      IssueValid(s, c, s.rows[token].user, s.rows[token].family, now);
    } else if outcome.Issued? {
      IssueValid(s, c, s.rows[token].user, s.rows[token].family, now);
      NothingPointsAhead(s);
      RotatedValid(Issue(s, c, s.rows[token].user, s.rows[token].family, now), token, s.next, now);
    }
  }

  lemma NothingPointsAhead(s: Store)
    requires Valid(s)
    ensures forall id | id in s.rows :: s.rows[id].replacedBy != Some(s.next)
    ensures forall id | id in s.rows && s.rows[id].revokedAt.None? :: s.rows[id].replacedBy.None?
  {
    forall id | id in s.rows
      ensures s.rows[id].replacedBy != Some(s.next)
      ensures s.rows[id].revokedAt.None? ==> s.rows[id].replacedBy.None?
    {
      if s.rows[id].replacedBy.Some? {
        assert Successor(s, id, s.rows[id].replacedBy.value);
      }
    }
  }

  lemma LoginValid(s: Store, c: Config, user: int, accepted: bool, now: int)
    requires Valid(s)
    ensures Valid(LoginStep(s, c, user, accepted, now).1)
  {
    if user in s.users && accepted {
      ValidMoreFamilies(s);
      IssueValid(s.(nextFamily := s.nextFamily + 1), c, user, s.nextFamily, now);
    }
  }

  lemma ResetValid(s: Store, reset: nat, now: int)
    requires Valid(s)
    ensures Valid(ResetStep(s, reset, now).1)
  {
    RevokedValid(s, ResetStep(s, reset, now).1, now);
  }

  lemma LogoutValid(s: Store, token: nat, now: int)
    requires Valid(s)
    ensures Valid(LogoutStep(s, token, now).1)
  {
    RevokedValid(s, LogoutStep(s, token, now).1, now);
  }

  /** Every operation keeps the store valid, including the ones that raise. */
  lemma StepValid(s: Store, c: Config, op: Op, now: int)
    requires Valid(s)
    ensures Valid(Step(s, c, op, now).1)
  {
    match op
    case Login(user, accepted) => LoginValid(s, c, user, accepted, now);
    case Refresh(token) => RefreshValid(s, c, token, now);
    case Logout(token) => LogoutValid(s, token, now);
    case AskReset(user, mail) => AskResetValid(s, c, user, mail, now);
    case Reset(reset) => ResetValid(s, reset, now);
  }

  lemma AskResetValid(s: Store, c: Config, user: int, mail: Mail, now: int)
    requires Valid(s)
    ensures Valid(AskResetStep(s, c, user, mail, now).1)
  {
    var t := AskResetStep(s, c, user, mail, now).1;
    forall id | id in t.rows && t.rows[id].replacedBy.Some?
      ensures Successor(t, id, t.rows[id].replacedBy.value)
    {
      assert Successor(s, id, s.rows[id].replacedBy.value);
    }
  }

  lemma ValidMoreFamilies(s: Store)
    requires Valid(s)
    ensures Valid(s.(nextFamily := s.nextFamily + 1))
  {
    var t := s.(nextFamily := s.nextFamily + 1);
    forall id | id in t.rows && t.rows[id].replacedBy.Some?
      ensures Successor(t, id, t.rows[id].replacedBy.value)
    {
      assert Successor(s, id, s.rows[id].replacedBy.value);
    }
  }

  /** Tokens never disappear, change hands, come back to life, or get a second successor. */
  ghost predicate Evolves(s: Store, t: Store) {
    && s.users == t.users
    && s.next <= t.next && s.nextFamily <= t.nextFamily
    && forall id | id in s.rows ::
         && id in t.rows
         && t.rows[id].user == s.rows[id].user
         && t.rows[id].family == s.rows[id].family
         && t.rows[id].expires == s.rows[id].expires
         && (s.rows[id].revokedAt.Some? ==> t.rows[id].revokedAt == s.rows[id].revokedAt
                                            && t.rows[id].replacedBy == s.rows[id].replacedBy)
  }

  lemma RefreshEvolves(s: Store, c: Config, token: nat, now: int)
    requires Valid(s)
    ensures Evolves(s, RefreshStep(s, c, token, now).1)
  {
    var outcome := RefreshStep(s, c, token, now).0;
    if outcome.Reused? {
      RevokeEvolves(s, outcome.family, outcome.user, now);
    } else if outcome.Sibling? || outcome.Issued? {
      IssueEvolves(s, c, s.rows[token].user, s.rows[token].family, now);
    }
  }

  lemma IssueEvolves(s: Store, c: Config, user: int, family: nat, now: int)
    requires Valid(s)
    ensures Evolves(s, Issue(s, c, user, family, now))
  {}

  lemma RevokeEvolves(s: Store, family: nat, user: int, now: int)
    ensures Evolves(s, RevokeFamily(s, family, user, now))
  {}

  lemma LoginEvolves(s: Store, c: Config, user: int, accepted: bool, now: int)
    requires Valid(s)
    ensures Evolves(s, LoginStep(s, c, user, accepted, now).1)
  {}

  lemma LogoutEvolves(s: Store, token: nat, now: int)
    ensures Evolves(s, LogoutStep(s, token, now).1)
  {}

  lemma ResetEvolves(s: Store, reset: nat, now: int)
    ensures Evolves(s, ResetStep(s, reset, now).1)
  {}

  lemma AskResetEvolves(s: Store, c: Config, user: int, mail: Mail, now: int)
    ensures Evolves(s, AskResetStep(s, c, user, mail, now).1)
  {}

  lemma StepEvolves(s: Store, c: Config, op: Op, now: int)
    requires Valid(s)
    ensures Evolves(s, Step(s, c, op, now).1)
  {
    match op
    case Login(user, accepted) => LoginEvolves(s, c, user, accepted, now);
    case Refresh(token) => RefreshEvolves(s, c, token, now);
    case Logout(token) => LogoutEvolves(s, token, now);
    case AskReset(user, mail) => AskResetEvolves(s, c, user, mail, now);
    case Reset(reset) => ResetEvolves(s, reset, now);
  }

  lemma {:induction false} RunEvolves(s: Store, c: Config, calls: seq<Call>)
    requires Valid(s)
    ensures Valid(Run(s, c, calls))
    ensures Evolves(s, Run(s, c, calls))
  {
    if calls != [] {
      var front, last := calls[..|calls| - 1], calls[|calls| - 1];
      RunEvolves(s, c, front);
      StepValid(Run(s, c, front), c, last.op, last.at);
      StepEvolves(Run(s, c, front), c, last.op, last.at);
    }
  }

  /** A chain of rotations, each token replaced by the next. */
  ghost predicate Chain(s: Store, ids: seq<nat>) {
    && (forall i | 0 <= i < |ids| :: ids[i] in s.rows)
    && forall i | 0 <= i < |ids| - 1 :: s.rows[ids[i]].replacedBy == Some(ids[i + 1])
  }

  /** Rotation chains never revisit a token and stay inside one family of one user. */
  lemma {:induction false} ChainAcyclic(s: Store, ids: seq<nat>, i: nat, j: nat)
    requires Valid(s) && Chain(s, ids) && i < j < |ids|
    ensures ids[i] < ids[j]
    ensures s.rows[ids[i]].family == s.rows[ids[j]].family && s.rows[ids[i]].user == s.rows[ids[j]].user
    decreases j
  {
    assert Successor(s, ids[j - 1], ids[j]);
    if i < j - 1 {
      ChainAcyclic(s, ids, i, j - 1);
    }
  }

  // ---- Conservation ----

  ghost function Live(s: Store, family: nat): set<nat> {
    set id | id in s.rows && s.rows[id].family == family && s.rows[id].revokedAt.None?
  }

  /** Requests that add a live token to the family. */
  ghost function Gain(s: Store, c: Config, op: Op, now: int, family: nat): int {
    match op
    case Refresh(token) =>
      if RefreshStep(s, c, token, now).0.Sibling? && s.rows[token].family == family then 1 else 0
    case Logout(token) =>
      if token in s.rows && s.rows[token].revokedAt.None? && s.rows[token].family == family then -1 else 0
    case _ => 0
  }

  /** The request revokes every token of the user who owns the family. */
  predicate IsReset(s: Store, c: Config, op: Op, now: int, user: int) {
    op.Reset? && op.reset in s.resets && s.resets[op.reset].user == user && !Step(s, c, op, now).0.Raised()
  }

  lemma IssueLive(s: Store, c: Config, user: int, family: nat, now: int, g: nat)
    requires Valid(s)
    ensures Live(Issue(s, c, user, family, now), g) == if g == family then Live(s, g) + {s.next} else Live(s, g)
    ensures s.next !in Live(s, g)
  {}

  lemma RotateLive(s: Store, token: nat, r: Row, g: nat)
    requires token in s.rows && r.family == s.rows[token].family && r.revokedAt.Some?
    ensures Live(s.(rows := s.rows[token := r]), g) == Live(s, g) - {token}
  {}

  lemma RefreshConserves(s: Store, c: Config, token: nat, now: int, family: nat)
    requires Valid(s)
    ensures |Live(Request(s, c, Refresh(token), now), family)|
            == |Live(s, family)| + Gain(s, c, Refresh(token), now, family)
  {
    var outcome := RefreshStep(s, c, token, now).0;
    if outcome.Sibling? {
      IssueLive(s, c, s.rows[token].user, s.rows[token].family, now, family);
    } else if outcome.Issued? {
      RotationConserves(s, c, token, now, family);
    }
  }

  /** A rotation trades one live token for another. */
  lemma RotationConserves(s: Store, c: Config, token: nat, now: int, family: nat)
    requires Valid(s) && RefreshStep(s, c, token, now).0.Issued?
    ensures |Live(RefreshStep(s, c, token, now).1, family)| == |Live(s, family)|
  {
    var r, after := s.rows[token], RefreshStep(s, c, token, now).1;
    IssueLive(s, c, r.user, r.family, now, family);
    RotateLive(Issue(s, c, r.user, r.family, now), token, after.rows[token], family);
    if family == r.family {
      SwapSize(Live(s, family), token, s.next);
    } else {
      assert Live(s, family) - {token} == Live(s, family);
    }
  }

  lemma SwapSize(S: set<nat>, x: nat, y: nat)
    requires x in S && y !in S
    ensures |S + {y} - {x}| == |S|
  {}

  lemma RevokedLive(s: Store, token: nat, now: int, g: nat)
    requires token in s.rows
    ensures var after := Live(s.(rows := s.rows[token := Revoke(s.rows[token], now)]), g);
            after == if s.rows[token].revokedAt.None? && s.rows[token].family == g
                     then Live(s, g) - {token} else Live(s, g)
    ensures s.rows[token].revokedAt.None? && s.rows[token].family == g ==> token in Live(s, g)
  {}

  lemma LogoutConserves(s: Store, c: Config, token: nat, now: int, family: nat)
    requires Valid(s)
    ensures |Live(Request(s, c, Logout(token), now), family)|
            == |Live(s, family)| + Gain(s, c, Logout(token), now, family)
  {
    if token in s.rows {
      RevokedLive(s, token, now, family);
    }
  }

  lemma RequestConserves(s: Store, c: Config, op: Op, now: int, family: nat, user: int)
    requires Valid(s) && family < s.nextFamily
    requires forall id | id in s.rows && s.rows[id].family == family :: s.rows[id].user == user
    requires !IsReset(s, c, op, now, user)
    ensures |Live(Request(s, c, op, now), family)| == |Live(s, family)| + Gain(s, c, op, now, family)
  {
    match op
    case Login(_, _) => assert Live(Request(s, c, op, now), family) == Live(s, family);
    case AskReset(_, _) => assert Live(Request(s, c, op, now), family) == Live(s, family);
    case Reset(reset) => assert Live(Request(s, c, op, now), family) == Live(s, family);
    case Logout(token) => LogoutConserves(s, c, token, now, family);
    case Refresh(token) => RefreshConserves(s, c, token, now, family);
  }

  /** Net grace siblings minus effective logouts of the family over a run. */
  ghost function Ledger(s: Store, c: Config, calls: seq<Call>, family: nat): int {
    if calls == [] then 0
    else
      var last := calls[|calls| - 1];
      Ledger(s, c, calls[..|calls| - 1], family)
      + Gain(Run(s, c, calls[..|calls| - 1]), c, last.op, last.at, family)
  }

  /** No password reset of this user goes through during the run. */
  ghost predicate NoReset(s: Store, c: Config, calls: seq<Call>, user: int) {
    forall i | 0 <= i < |calls| :: !IsReset(Run(s, c, calls[..i]), c, calls[i].op, calls[i].at, user)
  }

  lemma {:induction false} RunConserves(s: Store, c: Config, calls: seq<Call>, family: nat, user: int)
    requires Valid(s) && family < s.nextFamily
    requires forall id | id in s.rows && s.rows[id].family == family :: s.rows[id].user == user
    requires exists id :: id in s.rows && s.rows[id].family == family
    requires NoReset(s, c, calls, user)
    ensures |Live(Run(s, c, calls), family)| == |Live(s, family)| + Ledger(s, c, calls, family)
  {
    if calls != [] {
      var front, last := calls[..|calls| - 1], calls[|calls| - 1];
      NoResetFront(s, c, calls, user);
      RunConserves(s, c, front, family, user);
      RunEvolves(s, c, front);
      OwnerStays(s, Run(s, c, front), family, user);
      RequestConserves(Run(s, c, front), c, last.op, last.at, family, user);
    }
  }

  lemma NoResetFront(s: Store, c: Config, calls: seq<Call>, user: int)
    requires calls != [] && NoReset(s, c, calls, user)
    ensures NoReset(s, c, calls[..|calls| - 1], user)
    ensures var last := calls[|calls| - 1]; !IsReset(Run(s, c, calls[..|calls| - 1]), c, last.op, last.at, user)
  {
    var front := calls[..|calls| - 1];
    forall i | 0 <= i < |front|
      ensures !IsReset(Run(s, c, front[..i]), c, front[i].op, front[i].at, user)
    {
      assert front[..i] == calls[..i];
    }
  }

  /** A family once opened keeps its user. */
  lemma OwnerStays(s: Store, t: Store, family: nat, user: int)
    requires Valid(t) && Evolves(s, t)
    requires forall id | id in s.rows && s.rows[id].family == family :: s.rows[id].user == user
    requires exists id :: id in s.rows && s.rows[id].family == family
    ensures forall id | id in t.rows && t.rows[id].family == family :: t.rows[id].user == user
  {
    var id :| id in s.rows && s.rows[id].family == family;
    assert id in t.rows;
  }

  /** A family opened by a login holds 1 + grace siblings - effective logouts live tokens, until its user resets. */
  lemma FamilyConservation(s: Store, c: Config, user: int, at: int, calls: seq<Call>)
    requires Valid(s) && user in s.users
    requires NoReset(Request(s, c, Login(user, true), at), c, calls, user)
    ensures var start := Request(s, c, Login(user, true), at);
            |Live(Run(start, c, calls), s.nextFamily)| == 1 + Ledger(start, c, calls, s.nextFamily)
  {
    var start := Request(s, c, Login(user, true), at);
    StepValid(s, c, Login(user, true), at);
    assert Live(start, s.nextFamily) == {s.next};
    assert s.next in start.rows;
    RunConserves(start, c, calls, s.nextFamily, user);
  }

  /** Every recorded revocation lies before `t`. */
  ghost predicate RevokedBefore(s: Store, t: int) {
    forall id | id in s.rows && s.rows[id].revokedAt.Some? :: s.rows[id].revokedAt.value < t
  }

  ghost predicate StrictlyLater(calls: seq<Call>, t: int) {
    && (forall i | 0 <= i < |calls| :: calls[i].at > t)
    && (forall i, j | 0 <= i < j < |calls| :: calls[i].at < calls[j].at)
  }

  lemma RequestNoSibling(s: Store, c: Config, op: Op, now: int, family: nat)
    requires c.grace == 0 && RevokedBefore(s, now)
    ensures Gain(s, c, op, now, family) <= 0
    ensures RevokedBefore(Request(s, c, op, now), now + 1)
  {}

  lemma {:induction false} NoSiblings(s: Store, c: Config, calls: seq<Call>, family: nat, t: int)
    requires c.grace == 0 && RevokedBefore(s, t + 1) && StrictlyLater(calls, t)
    ensures Ledger(s, c, calls, family) <= 0
    ensures RevokedBefore(Run(s, c, calls), if calls == [] then t + 1 else calls[|calls| - 1].at + 1)
  {
    if calls != [] {
      var n := |calls| - 1;
      NoSiblings(s, c, calls[..n], family, t);
      RequestNoSibling(Run(s, c, calls[..n]), c, calls[n].op, calls[n].at, family);
    }
  }

  /** Without a grace window, on a strictly increasing clock, a family never has two live tokens. */
  lemma AtMostOneLive(s: Store, c: Config, user: int, at: int, calls: seq<Call>)
    requires Valid(s) && user in s.users && c.grace == 0
    requires RevokedBefore(s, at + 1) && StrictlyLater(calls, at)
    requires NoReset(Request(s, c, Login(user, true), at), c, calls, user)
    ensures |Live(Run(Request(s, c, Login(user, true), at), c, calls), s.nextFamily)| <= 1
  {
    var start := Request(s, c, Login(user, true), at);
    FamilyConservation(s, c, user, at, calls);
    StepValid(s, c, Login(user, true), at);
    NoSiblings(start, c, calls, s.nextFamily, at);
  }

  // ---- Permanent death ----

  ghost predicate Dead(s: Store, family: nat) {
    forall id | id in s.rows && s.rows[id].family == family :: s.rows[id].revokedAt.Some?
  }

  /** No token of the family was rotated within the grace window before `t`. */
  ghost predicate Quiet(s: Store, c: Config, family: nat, t: int) {
    forall id | id in s.rows && s.rows[id].family == family :: !JustRotated(s.rows[id], c, t)
  }

  ghost predicate NotBefore(calls: seq<Call>, t: int) {
    && (forall i | 0 <= i < |calls| :: calls[i].at >= t)
    && (forall i, j | 0 <= i < j < |calls| :: calls[i].at <= calls[j].at)
  }

  lemma {:induction false} DeadStaysDead(s: Store, c: Config, family: nat, t: int, calls: seq<Call>)
    requires Valid(s) && family < s.nextFamily && Dead(s, family) && Quiet(s, c, family, t) && NotBefore(calls, t)
    ensures Dead(Run(s, c, calls), family)
    ensures Quiet(Run(s, c, calls), c, family, if calls == [] then t else calls[|calls| - 1].at)
  {
    if calls != [] {
      var n := |calls| - 1;
      DeadStaysDead(s, c, family, t, calls[..n]);
      RunEvolves(s, c, calls[..n]);
      var before := Run(s, c, calls[..n]);
      RequestKeepsDead(before, c, family, if n == 0 then t else calls[n - 1].at, calls[n].op, calls[n].at);
    }
  }

  /** Nothing is issued into a family that is dead and quiet. */
  lemma NoIssueWhenDead(s: Store, c: Config, family: nat, op: Op, now: int)
    requires Valid(s) && family < s.nextFamily && Dead(s, family) && Quiet(s, c, family, now)
    ensures forall id | id in Step(s, c, op, now).1.rows && id !in s.rows ::
            Step(s, c, op, now).1.rows[id].family != family
  {
    match op
    case Refresh(token) =>
      if token in s.rows && s.rows[token].family == family {
        assert !JustRotated(s.rows[token], c, now);
      }
    case _ =>
  }

  lemma RequestKeepsDead(s: Store, c: Config, family: nat, t: int, op: Op, now: int)
    requires Valid(s) && family < s.nextFamily && Dead(s, family) && Quiet(s, c, family, t) && t <= now
    ensures Dead(Request(s, c, op, now), family)
    ensures Quiet(Request(s, c, op, now), c, family, now)
  {
    assert Quiet(s, c, family, now) by {
      assert forall id | id in s.rows && s.rows[id].family == family :: !JustRotated(s.rows[id], c, t);
    }
    NoIssueWhenDead(s, c, family, op, now);
    StepEvolves(s, c, op, now);
    EvolvedDead(s, Request(s, c, op, now), c, family, now);
  }

  lemma EvolvedDead(s: Store, t: Store, c: Config, family: nat, now: int)
    requires Dead(s, family) && Quiet(s, c, family, now) && (t == s || Evolves(s, t))
    requires forall id | id in t.rows && id !in s.rows :: t.rows[id].family != family
    ensures Dead(t, family) && Quiet(t, c, family, now)
  {
    forall id | id in t.rows && t.rows[id].family == family
      ensures t.rows[id].revokedAt.Some? && !JustRotated(t.rows[id], c, now)
    {
      assert id in s.rows && !JustRotated(s.rows[id], c, now);
    }
  }

  /** A recently rotated token brings a dead family back with a single refresh. */
  lemma RecentRotationRevives(s: Store, c: Config, family: nat, t: int, id: nat)
    requires Valid(s) && id in s.rows && s.rows[id].family == family && JustRotated(s.rows[id], c, t)
    ensures !Dead(Run(s, c, [Call(Refresh(id), t)]), family)
  {
    var calls := [Call(Refresh(id), t)];
    assert calls[..0] == [];
    assert Run(s, c, calls[..0]) == s;
    var after := Run(s, c, calls);
    assert s.next in after.rows && after.rows[s.next].family == family && after.rows[s.next].revokedAt.None?;
  }

  ghost predicate DeadForGood(s: Store, c: Config, family: nat, t: int) {
    forall calls | NotBefore(calls, t) :: Dead(Run(s, c, calls), family)
  }

  /** A dead family is dead in every later run exactly when none of its tokens was rotated within the grace window. */
  lemma DeathPermanentIff(s: Store, c: Config, family: nat, t: int)
    requires Valid(s) && family < s.nextFamily && Dead(s, family)
    ensures DeadForGood(s, c, family, t) <==> Quiet(s, c, family, t)
  {
    if Quiet(s, c, family, t) {
      forall calls | NotBefore(calls, t)
        ensures Dead(Run(s, c, calls), family)
      {
        DeadStaysDead(s, c, family, t, calls);
      }
    } else {
      var id :| id in s.rows && s.rows[id].family == family && JustRotated(s.rows[id], c, t);
      RecentRotationRevives(s, c, family, t, id);
      assert NotBefore([Call(Refresh(id), t)], t);
    }
  }

  /** A password reset kills every family of the user, for good exactly where no rotation is recent. */
  lemma ResetKillsFamilies(s: Store, c: Config, reset: nat, t: int, family: nat)
    requires Valid(s) && family < s.nextFamily
    requires reset in s.resets && IsReset(s, c, Reset(reset), t, s.resets[reset].user)
    requires forall id | id in s.rows && s.rows[id].family == family :: s.rows[id].user == s.resets[reset].user
    ensures var after := Request(s, c, Reset(reset), t);
            && Dead(after, family)
            && (DeadForGood(after, c, family, t) <==> Quiet(s, c, family, t))
  {
    var after := Request(s, c, Reset(reset), t);
    ResetValid(s, reset, t);
    ResetRevokes(s, c, reset, t);
    RevokeUserKills(s, after, c, s.resets[reset].user, family, t);
    DeathPermanentIff(after, c, family, t);
  }

  lemma ResetRevokes(s: Store, c: Config, reset: nat, t: int)
    requires reset in s.resets && IsReset(s, c, Reset(reset), t, s.resets[reset].user)
    ensures Request(s, c, Reset(reset), t) == ResetStep(s, reset, t).1
    ensures Request(s, c, Reset(reset), t).rows == RevokeUser(s, s.resets[reset].user, t).rows
    ensures Request(s, c, Reset(reset), t).nextFamily == s.nextFamily
  {}

  lemma RevokeUserKills(s: Store, after: Store, c: Config, user: int, family: nat, t: int)
    requires Valid(s) && after.rows == RevokeUser(s, user, t).rows
    requires forall id | id in s.rows && s.rows[id].family == family :: s.rows[id].user == user
    ensures Dead(after, family)
    ensures Quiet(after, c, family, t) <==> Quiet(s, c, family, t)
  {
    NothingPointsAhead(s);
    assert forall id | id in s.rows :: JustRotated(s.rows[id], c, t) <==> JustRotated(after.rows[id], c, t);
  }

  /** Reuse detection revokes every live token of the family in the session it runs in,
      and the request then leaves the committed store as it was. */
  lemma ReuseInSessionAndCommitted(s: Store, c: Config, token: nat, now: int)
    requires Valid(s) && RefreshStep(s, c, token, now).0.Reused?
    ensures Dead(RefreshStep(s, c, token, now).1, s.rows[token].family)
    ensures Request(s, c, Refresh(token), now) == s
  {
    var after := RefreshStep(s, c, token, now).1;
    forall id | id in after.rows && after.rows[id].family == s.rows[token].family
      ensures after.rows[id].revokedAt.Some?
    {
      assert s.rows[id].user == s.rows[token].user;
    }
  }

  /** A password-reset token opens the door at most once. */
  lemma ResetTokenSingleUse(s: Store, c: Config, reset: nat, t: int, calls: seq<Call>, now: int)
    requires Valid(s) && reset in s.resets && IsReset(s, c, Reset(reset), t, s.resets[reset].user)
    ensures Step(Run(Request(s, c, Reset(reset), t), c, calls), c, Reset(reset), now).0 == InvalidReset
  {
    StepValid(s, c, Reset(reset), t);
    SpentStaysSpent(Request(s, c, Reset(reset), t), c, calls, reset);
  }

  lemma {:induction false} SpentStaysSpent(s: Store, c: Config, calls: seq<Call>, reset: nat)
    requires Valid(s) && reset in s.resets && s.resets[reset].usedAt.Some?
    ensures reset in Run(s, c, calls).resets && Run(s, c, calls).resets[reset].usedAt.Some?
  {
    if calls != [] {
      var n := |calls| - 1;
      SpentStaysSpent(s, c, calls[..n], reset);
      RunEvolves(s, c, calls[..n]);
      StepKeepsSpent(Run(s, c, calls[..n]), c, calls[n].op, calls[n].at, reset);
    }
  }

  lemma StepKeepsSpent(s: Store, c: Config, op: Op, now: int, reset: nat)
    requires Valid(s) && reset in s.resets && s.resets[reset].usedAt.Some?
    ensures var t := Step(s, c, op, now).1; reset in t.resets && t.resets[reset].usedAt.Some?
  {}

  /** Unused reset links of one user. */
  ghost predicate OneOpenLink(s: Store) {
    forall a, b | a in s.resets && b in s.resets && s.resets[a].usedAt.None? && s.resets[b].usedAt.None?
                  && s.resets[a].user == s.resets[b].user :: a == b
  }

  /** At any time a user has at most one working reset link. */
  lemma {:induction false} AtMostOneOpenLink(s: Store, c: Config, calls: seq<Call>)
    requires Valid(s) && OneOpenLink(s)
    ensures OneOpenLink(Run(s, c, calls))
  {
    if calls != [] {
      var front, last := calls[..|calls| - 1], calls[|calls| - 1];
      AtMostOneOpenLink(s, c, front);
      RunEvolves(s, c, front);
      StepOneOpenLink(Run(s, c, front), c, last.op, last.at);
    }
  }

  lemma StepOneOpenLink(s: Store, c: Config, op: Op, now: int)
    requires Valid(s) && OneOpenLink(s)
    ensures OneOpenLink(Step(s, c, op, now).1)
  {
    match op
    case Login(user, accepted) => assert LoginStep(s, c, user, accepted, now).1.resets == s.resets;
    case Refresh(token) => assert RefreshStep(s, c, token, now).1.resets == s.resets;
    case Logout(token) => assert LogoutStep(s, token, now).1.resets == s.resets;
    case AskReset(user, mail) => AskOneOpenLink(s, c, user, mail, now);
    case Reset(reset) => assert OneOpenLink(ResetStep(s, reset, now).1);
  }

  lemma AskOneOpenLink(s: Store, c: Config, user: int, mail: Mail, now: int)
    requires Valid(s) && OneOpenLink(s)
    ensures OneOpenLink(AskResetStep(s, c, user, mail, now).1)
  {}
}
