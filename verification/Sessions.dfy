/**
 Session lifecycle: issue, lazy sliding of the idle deadline clamped to an absolute
 one, revocation and background purging, as serialized operations on the table.
 */
module Sessions {
  type Token = string

  /** The four timeouts of the auth section, in nanoseconds. */
  datatype Config = Config(idle: int, absolute: int, rememberIdle: int, rememberAbsolute: int)

  /** The ordering that configuration loading insists on. */
  predicate Validated(c: Config) {
    && c.idle > 0 && c.absolute >= c.idle
    && c.rememberIdle > 0 && c.rememberAbsolute >= c.rememberIdle
  }

  datatype Session = Session(userId: int, expiresAt: int, lastSeenAt: int, absoluteExpiresAt: int)

  type Table = map<Token, Session>

  // ----- the queries and handlers as functions -----

  function NewSession(c: Config, userId: int, rememberMe: bool, now: int): Session {
    Session(userId,
            now + (if rememberMe then c.rememberIdle else c.idle),
            now,
            now + (if rememberMe then c.rememberAbsolute else c.absolute))
  }

  predicate Expired(s: Session, now: int) {
    now > s.absoluteExpiresAt || now > s.expiresAt
  }

  /** Whatever timeout the session was issued with, sliding uses the standard idle timeout. */
  function Slid(c: Config, s: Session, now: int): Session {
    if now > s.expiresAt - c.idle / 2 then
      s.(expiresAt := if now + c.idle > s.absoluteExpiresAt then s.absoluteExpiresAt else now + c.idle,
          lastSeenAt := now)
    else s
  }

  datatype State = State(sessions: Table, users: set<int>)

  function AfterAuthenticate(c: Config, s: State, token: Token, now: int): State {
    if token == "" || token !in s.sessions then s
    else if Expired(s.sessions[token], now) then s.(sessions := s.sessions - {token})
    else s.(sessions := s.sessions[token := Slid(c, s.sessions[token], now)])
  }

  predicate Accepted(s: State, token: Token, now: int) {
    token != "" && token in s.sessions && !Expired(s.sessions[token], now) && s.sessions[token].userId in s.users
  }

  datatype Action = Browse | Logout | Revoke(target: Token) | RevokeOthers

  function WithoutOthers(t: Table, userId: int, current: Token): Table {
    map k | k in t && !(t[k].userId == userId && k != current) :: t[k]
  }

  /** What an authenticated handler does to the table. */
  function Handled(t: Table, token: Token, action: Action): Table
    requires token in t
  {
    match action
    case Browse => t
    case Logout => t - {token}
    case Revoke(target) => if target != "" && target in t && t[target].userId == t[token].userId
      then t - {target} else t
    case RevokeOthers => WithoutOthers(t, t[token].userId, token)
  }

  function Purged(t: Table, now: int): Table {
    map k | k in t && !(t[k].expiresAt < now || t[k].absoluteExpiresAt < now) :: t[k]
  }

  datatype Op =
    | Issue(token: Token, userId: int, rememberMe: bool, now: int)
    | Request(token: Token, action: Action, now: int)
    | Purge(now: int)

  function Do(c: Config, s: State, op: Op): State {
    match op
    case Issue(token, userId, rememberMe, now) =>
      if token in s.sessions then s
      else s.(sessions := s.sessions[token := NewSession(c, userId, rememberMe, now)])
    case Request(token, action, now) =>
      var s' := AfterAuthenticate(c, s, token, now);
      if Accepted(s, token, now) then s'.(sessions := Handled(s'.sessions, token, action)) else s'
    case Purge(now) => s.(sessions := Purged(s.sessions, now))
  }

  function DoAll(c: Config, s: State, ops: seq<Op>): State
    decreases |ops|
  {
    if ops == [] then s else DoAll(c, Do(c, s, ops[0]), ops[1..])
  }

  /** Whether each request of the run authenticated, in order. */
  function Verdicts(c: Config, s: State, ops: seq<Op>): seq<bool>
    decreases |ops|
  {
    if ops == [] then []
    else
      (if ops[0].Request? then [Accepted(s, ops[0].token, ops[0].now)] else [])
        + Verdicts(c, Do(c, s, ops[0]), ops[1..])
  }

  /** The clock never runs backwards, tokens are never issued twice, and sessions go to existing users. */
  predicate Legal(s: State, issued: set<Token>, last: int, ops: seq<Op>)
    decreases |ops|
  {
    ops != [] ==>
      && last <= ops[0].now
      && (ops[0].Issue? ==> ops[0].token != "" && ops[0].token !in issued && ops[0].userId in s.users)
      && Legal(s, if ops[0].Issue? then issued + {ops[0].token} else issued, ops[0].now, ops[1..])
  }

  // ----- deadlines over whole runs -----

  /** Every session in the table was issued, to an existing user, and its idle deadline is within the absolute one. */
  ghost predicate Ok(s: State, issued: set<Token>) {
    && "" !in issued
    && s.sessions.Keys <= issued
    && (forall t :: t in s.sessions ==>
        s.sessions[t].expiresAt <= s.sessions[t].absoluteExpiresAt && s.sessions[t].userId in s.users)
  }

  function IssuedAfter(issued: set<Token>, op: Op): set<Token> {
    if op.Issue? then issued + {op.token} else issued
  }

  lemma SlideOnlyForward(c: Config, s: Session, now: int)
    requires Validated(c) && s.expiresAt <= s.absoluteExpiresAt && !Expired(s, now)
    ensures var s' := Slid(c, s, now);
            && s.expiresAt <= s'.expiresAt <= s'.absoluteExpiresAt == s.absoluteExpiresAt
            && (now + c.idle / 2 <= s'.expiresAt || s'.expiresAt == s'.absoluteExpiresAt)
  {
  }

  lemma AuthenticateDeadlines(c: Config, s: State, issued: set<Token>, token: Token, now: int)
    requires Validated(c) && Ok(s, issued)
    ensures var s' := AfterAuthenticate(c, s, token, now);
            && Ok(s', issued) && s'.sessions.Keys <= s.sessions.Keys
            && forall t :: t in s'.sessions ==>
                 && s.sessions[t].expiresAt <= s'.sessions[t].expiresAt
                 && s.sessions[t].absoluteExpiresAt == s'.sessions[t].absoluteExpiresAt
  {
    if token != "" && token in s.sessions && !Expired(s.sessions[token], now) {
      SlideOnlyForward(c, s.sessions[token], now);
    }
  }

  /** Handlers only delete. */
  lemma HandledDeletes(t: Table, token: Token, action: Action)
    requires token in t
    ensures forall k :: k in Handled(t, token, action) ==> k in t && Handled(t, token, action)[k] == t[k]
  {
  }

  /** No step moves a deadline back, past the absolute one, or moves the absolute one at all. */
  lemma StepDeadlines(c: Config, s: State, issued: set<Token>, last: int, op: Op)
    requires Validated(c) && Ok(s, issued) && Legal(s, issued, last, [op])
    ensures Ok(Do(c, s, op), IssuedAfter(issued, op))
    ensures forall t :: t in s.sessions && t in Do(c, s, op).sessions ==>
      && s.sessions[t].expiresAt <= Do(c, s, op).sessions[t].expiresAt
      && s.sessions[t].absoluteExpiresAt == Do(c, s, op).sessions[t].absoluteExpiresAt
    ensures forall t :: t in issued && t !in s.sessions ==> t !in Do(c, s, op).sessions
  {
    if op.Request? {
      AuthenticateDeadlines(c, s, issued, op.token, op.now);
      if Accepted(s, op.token, op.now) {
        HandledDeletes(AfterAuthenticate(c, s, op.token, op.now).sessions, op.token, op.action);
      }
    }
  }

  lemma LegalHead(s: State, issued: set<Token>, last: int, ops: seq<Op>)
    requires Legal(s, issued, last, ops) && ops != []
    ensures Legal(s, issued, last, [ops[0]])
    ensures Legal(s, IssuedAfter(issued, ops[0]), ops[0].now, ops[1..])
  {
    assert [ops[0]][1..] == [];
  }

  /** Only the users matter to the legality of what follows. */
  lemma {:induction false} LegalStable(s: State, s': State, issued: set<Token>, last: int, ops: seq<Op>)
    requires s.users == s'.users && Legal(s, issued, last, ops)
    ensures Legal(s', issued, last, ops)
    decreases |ops|
  {
    if ops != [] {
      LegalStable(s, s', IssuedAfter(issued, ops[0]), ops[0].now, ops[1..]);
    }
  }

  function IssuedAll(issued: set<Token>, ops: seq<Op>): set<Token>
    decreases |ops|
  {
    if ops == [] then issued else IssuedAll(IssuedAfter(issued, ops[0]), ops[1..])
  }

  /**
   Over every run: idle deadlines never decrease and never exceed the absolute deadline,
   which never changes; a removed session never comes back.
   */
  lemma {:induction false} RunDeadlines(c: Config, s: State, issued: set<Token>, last: int, ops: seq<Op>)
    requires Validated(c) && Ok(s, issued) && Legal(s, issued, last, ops)
    ensures Ok(DoAll(c, s, ops), IssuedAll(issued, ops))
    ensures forall t :: t in s.sessions && t in DoAll(c, s, ops).sessions ==>
      && s.sessions[t].expiresAt <= DoAll(c, s, ops).sessions[t].expiresAt
      && s.sessions[t].absoluteExpiresAt == DoAll(c, s, ops).sessions[t].absoluteExpiresAt
    ensures forall t :: t in issued && t !in s.sessions ==> t !in DoAll(c, s, ops).sessions
    decreases |ops|
  {
    if ops != [] {
      LegalHead(s, issued, last, ops);
      StepDeadlines(c, s, issued, last, ops[0]);
      LegalStable(s, Do(c, s, ops[0]), IssuedAfter(issued, ops[0]), ops[0].now, ops[1..]);
      RunDeadlines(c, Do(c, s, ops[0]), IssuedAfter(issued, ops[0]), ops[0].now, ops[1..]);
    }
  }

  // ----- once out, always out -----

  /** The verdicts on one token's requests, in order. */
  function VerdictsOn(c: Config, s: State, ops: seq<Op>, token: Token): seq<bool>
    decreases |ops|
  {
    if ops == [] then []
    else (if ops[0].Request? && ops[0].token == token then [Accepted(s, token, ops[0].now)] else [])
         + VerdictsOn(c, Do(c, s, ops[0]), ops[1..], token)
  }

  /** A session that was issued and is no longer in the table never authenticates again. */
  lemma {:induction false} RemovedNeverReturns(c: Config, s: State, issued: set<Token>, last: int, ops: seq<Op>,
                                               token: Token)
    requires Validated(c) && Ok(s, issued) && Legal(s, issued, last, ops)
    requires token in issued && token !in s.sessions
    ensures forall v :: v in VerdictsOn(c, s, ops, token) ==> !v
    decreases |ops|
  {
    if ops != [] {
      LegalHead(s, issued, last, ops);
      StepDeadlines(c, s, issued, last, ops[0]);
      LegalStable(s, Do(c, s, ops[0]), IssuedAfter(issued, ops[0]), ops[0].now, ops[1..]);
      RemovedNeverReturns(c, Do(c, s, ops[0]), IssuedAfter(issued, ops[0]), ops[0].now, ops[1..], token);
    }
  }

  /** A rejected session, logged out, revoked, expired or purged, has left the table. */
  lemma RejectedIsRemoved(c: Config, s: State, issued: set<Token>, token: Token, action: Action, now: int)
    requires Ok(s, issued) && !Accepted(s, token, now)
    ensures token !in Do(c, s, Request(token, action, now)).sessions
  {
  }

  /** The verdicts on an issued token are a run of acceptances followed by a run of rejections. */
  lemma {:induction false} AcceptedThenRejected(c: Config, s: State, issued: set<Token>, last: int, ops: seq<Op>,
                                                token: Token)
    requires Validated(c) && Ok(s, issued) && Legal(s, issued, last, ops) && token in issued
    ensures forall i, j :: 0 <= i < j < |VerdictsOn(c, s, ops, token)| && VerdictsOn(c, s, ops, token)[j] ==>
      VerdictsOn(c, s, ops, token)[i]
    decreases |ops|
  {
    if ops != [] {
      var op := ops[0];
      var s' := Do(c, s, op);
      var rest := VerdictsOn(c, s', ops[1..], token);
      LegalHead(s, issued, last, ops);
      StepDeadlines(c, s, issued, last, op);
      LegalStable(s, s', IssuedAfter(issued, op), op.now, ops[1..]);
      AcceptedThenRejected(c, s', IssuedAfter(issued, op), op.now, ops[1..], token);
      if op.Request? && op.token == token && !Accepted(s, token, op.now) {
        RejectedIsRemoved(c, s, issued, token, op.action, op.now);
        RemovedNeverReturns(c, s', issued, op.now, ops[1..], token);
        forall j | 0 <= j < |rest|
          ensures !rest[j]
        {
          assert rest[j] in rest;
        }
      }
    }
  }

  // ----- purging is never observable -----

  function WithoutPurges(ops: seq<Op>): seq<Op> {
    if ops == [] then []
    else (if ops[0].Purge? then [] else [ops[0]]) + WithoutPurges(ops[1..])
  }

  /** The two states differ at most in rows that have already expired. */
  ghost predicate SameLive(a: State, b: State, now: int) {
    && a.users == b.users
    && (forall t :: t in a.sessions && !Expired(a.sessions[t], now) ==>
        t in b.sessions && b.sessions[t] == a.sessions[t])
    && (forall t :: t in b.sessions && !Expired(b.sessions[t], now) ==>
        t in a.sessions && a.sessions[t] == b.sessions[t])
  }

  lemma PurgeHidden(a: State, b: State, last: int, now: int)
    requires SameLive(a, b, last) && last <= now
    ensures SameLive(a.(sessions := Purged(a.sessions, now)), b, now)
  {
  }

  lemma AuthenticateSameLive(c: Config, a: State, b: State, last: int, token: Token, now: int)
    requires SameLive(a, b, last) && last <= now
    ensures SameLive(AfterAuthenticate(c, a, token, now), AfterAuthenticate(c, b, token, now), now)
    ensures Accepted(a, token, now) <==> Accepted(b, token, now)
    ensures Accepted(a, token, now) ==>
      AfterAuthenticate(c, a, token, now).sessions[token] == AfterAuthenticate(c, b, token, now).sessions[token]
  {
  }

  lemma HandledSameLive(a: State, b: State, token: Token, action: Action, now: int)
    requires SameLive(a, b, now)
    requires token in a.sessions && token in b.sessions && a.sessions[token] == b.sessions[token]
    ensures SameLive(a.(sessions := Handled(a.sessions, token, action)),
            b.(sessions := Handled(b.sessions, token, action)), now)
  {
  }

  lemma StepSameLive(c: Config, a: State, b: State, last: int, op: Op)
    requires SameLive(a, b, last) && last <= op.now && !op.Purge?
    requires op.Issue? ==> op.token !in a.sessions && op.token !in b.sessions
    ensures SameLive(Do(c, a, op), Do(c, b, op), op.now)
    ensures op.Request? ==> (Accepted(a, op.token, op.now) <==> Accepted(b, op.token, op.now))
  {
    if op.Request? {
      AuthenticateSameLive(c, a, b, last, op.token, op.now);
      if Accepted(a, op.token, op.now) {
        HandledSameLive(AfterAuthenticate(c, a, op.token, op.now), AfterAuthenticate(c, b, op.token, op.now),
            op.token, op.action, op.now);
      }
    }
  }

  lemma KeysStayIssued(c: Config, s: State, issued: set<Token>, op: Op)
    requires s.sessions.Keys <= issued
    ensures Do(c, s, op).sessions.Keys <= IssuedAfter(issued, op)
  {
  }

  /** Leaving all purges out of a run changes no verdict; so neither does adding them anywhere. */
  lemma {:induction false} PurgesAreUnobservable(c: Config, a: State, b: State, issued: set<Token>, last: int,
                                                 ops: seq<Op>)
    requires SameLive(a, b, last) && Legal(a, issued, last, ops)
    requires a.sessions.Keys <= issued && b.sessions.Keys <= issued
    ensures Verdicts(c, a, ops) == Verdicts(c, b, WithoutPurges(ops))
    decreases |ops|
  {
    if ops != [] {
      var op := ops[0];
      LegalStable(a, Do(c, a, op), IssuedAfter(issued, op), op.now, ops[1..]);
      KeysStayIssued(c, a, issued, op);
      KeysStayIssued(c, b, issued, op);
      if op.Purge? {
        PurgeHidden(a, b, last, op.now);
        PurgesAreUnobservable(c, Do(c, a, op), b, issued, op.now, ops[1..]);
        assert WithoutPurges(ops) == WithoutPurges(ops[1..]);
      } else {
        StepSameLive(c, a, b, last, op);
        PurgesAreUnobservable(c, Do(c, a, op), Do(c, b, op), IssuedAfter(issued, op), op.now, ops[1..]);
        var rest := WithoutPurges(ops[1..]);
        assert WithoutPurges(ops) == [op] + rest;
        assert ([op] + rest)[1..] == rest;
      }
    }
  }

  /** Two legal runs that differ only in where purges happen authenticate the same requests. */
  lemma PurgeSchedulesAgree(c: Config, s: State, issued: set<Token>, last: int, ops: seq<Op>, ops': seq<Op>)
    requires s.sessions.Keys <= issued
    requires Legal(s, issued, last, ops) && Legal(s, issued, last, ops') && WithoutPurges(ops) == WithoutPurges(ops')
    ensures Verdicts(c, s, ops) == Verdicts(c, s, ops')
  {
    PurgesAreUnobservable(c, s, s, issued, last, ops);
    PurgesAreUnobservable(c, s, s, issued, last, ops');
  }

  // ----- how long a standard session lives between requests -----

  /** A request of the session's own user that logs it out or revokes it. */
  predicate Ends(s: State, op: Op, token: Token) {
    && op.Request? && Accepted(s, op.token, op.now) && token in s.sessions
    && s.sessions[op.token].userId == s.sessions[token].userId
    && match op.action
       case Browse => false
       case Logout => op.token == token
       case Revoke(target) => target == token
       case RevokeOthers => op.token != token
  }

  predicate EverEnds(c: Config, s: State, ops: seq<Op>, token: Token)
    decreases |ops|
  {
    ops != [] && (Ends(s, ops[0], token) || EverEnds(c, Do(c, s, ops[0]), ops[1..], token))
  }

  /** Before a session expires, an operation takes it away exactly when it ends it. */
  lemma StepEndsIff(c: Config, s: State, issued: set<Token>, last: int, op: Op, token: Token)
    requires Validated(c) && Ok(s, issued) && Legal(s, issued, last, [op])
    requires token in s.sessions && !Expired(s.sessions[token], op.now)
    ensures token in Do(c, s, op).sessions <==> !Ends(s, op, token)
  {
    assert token in issued;
    if op.Request? {
      AuthenticateDeadlines(c, s, issued, op.token, op.now);
    }
  }

  /** A session lasts to its deadline, or longer, exactly when no operation ends it. */
  lemma {:induction false} LastsUnlessEnded(c: Config, s: State, issued: set<Token>, last: int, ops: seq<Op>,
                                            token: Token, now: int)
    requires Validated(c) && Ok(s, issued) && Legal(s, issued, last, ops)
    requires token in s.sessions && !Expired(s.sessions[token], now)
    requires forall i :: 0 <= i < |ops| ==> ops[i].now <= now
    ensures Accepted(DoAll(c, s, ops), token, now) <==> !EverEnds(c, s, ops, token)
    decreases |ops|
  {
    if ops != [] {
      var s' := Do(c, s, ops[0]);
      LegalHead(s, issued, last, ops);
      StepDeadlines(c, s, issued, last, ops[0]);
      LegalStable(s, s', IssuedAfter(issued, ops[0]), ops[0].now, ops[1..]);
      StepEndsIff(c, s, issued, last, ops[0], token);
      if token in s'.sessions {
        LastsUnlessEnded(c, s', IssuedAfter(issued, ops[0]), ops[0].now, ops[1..], token, now);
      } else {
        RunDeadlines(c, s', IssuedAfter(issued, ops[0]), ops[0].now, ops[1..]);
      }
    }
  }

  /** Whatever others do, a session that sends no request keeps its row unchanged or loses it. */
  lemma {:induction false} UnusedRowNeverImproves(c: Config, s: State, issued: set<Token>, last: int, ops: seq<Op>,
                                                  token: Token)
    requires Ok(s, issued) && Validated(c) && Legal(s, issued, last, ops) && token in issued
    requires forall i :: 0 <= i < |ops| && ops[i].Request? ==> ops[i].token != token
    ensures token in DoAll(c, s, ops).sessions ==>
      token in s.sessions && DoAll(c, s, ops).sessions[token] == s.sessions[token]
    decreases |ops|
  {
    if ops != [] {
      var op := ops[0];
      LegalHead(s, issued, last, ops);
      StepDeadlines(c, s, issued, last, op);
      LegalStable(s, Do(c, s, op), IssuedAfter(issued, op), op.now, ops[1..]);
      UnusedRowNeverImproves(c, Do(c, s, op), IssuedAfter(issued, op), op.now, ops[1..], token);
    }
  }

  lemma AcceptedHasHalf(c: Config, s: State, op: Op)
    requires Validated(c) && op.Request? && Accepted(s, op.token, op.now)
    requires op.token in Do(c, s, op).sessions
    ensures var r := Do(c, s, op).sessions[op.token];
            r.absoluteExpiresAt == s.sessions[op.token].absoluteExpiresAt
            && (r.expiresAt >= op.now + c.idle / 2 || r.expiresAt == r.absoluteExpiresAt)
  {
    HandledDeletes(AfterAuthenticate(c, s, op.token, op.now).sessions, op.token, op.action);
  }

  /**
   A session that has just been accepted is accepted again within half the idle timeout and
   by its absolute deadline if and only if no request of its own user logged it out or
   revoked it, the accepted one included: nobody else's requests and no purge cost an
   active user the session, and neither does the lazy slide.
   */
  lemma ActiveSessionStays(c: Config, s: State, issued: set<Token>, token: Token, ops: seq<Op>, now: int)
    requires Validated(c) && Ok(s, issued) && ops != [] && Legal(s, issued, ops[0].now, ops)
    requires ops[0].Request? && ops[0].token == token && Accepted(s, token, ops[0].now)
    requires forall i :: 0 <= i < |ops| ==> ops[i].now <= now
    requires now <= ops[0].now + c.idle / 2 && now <= s.sessions[token].absoluteExpiresAt
    ensures Accepted(DoAll(c, s, ops), token, now) <==> !EverEnds(c, s, ops, token)
  {
    var first := ops[0];
    var s' := Do(c, s, first);
    LegalHead(s, issued, first.now, ops);
    StepDeadlines(c, s, issued, first.now, first);
    LegalStable(s, s', issued, first.now, ops[1..]);
    StepEndsIff(c, s, issued, first.now, first, token);
    if token in s'.sessions {
      AcceptedHasHalf(c, s, first);
      LastsUnlessEnded(c, s', issued, first.now, ops[1..], token, now);
    } else {
      RunDeadlines(c, s', issued, first.now, ops[1..]);
    }
  }

  /** The idle timeout and the lifetime a session of either kind is issued with. */
  function IdleOf(c: Config, rememberMe: bool): int {
    if rememberMe then c.rememberIdle else c.idle
  }

  function LifeOf(c: Config, rememberMe: bool): int {
    if rememberMe then c.rememberAbsolute else c.absolute
  }

  /** What a session is issued with, and that it is there. */
  lemma IssuedRow(c: Config, s: State, issued: set<Token>, issue: Op, ops: seq<Op>)
    requires Validated(c) && Ok(s, issued) && issue.Issue? && Legal(s, issued, issue.now, [issue] + ops)
    ensures var s' := Do(c, s, issue);
            && Ok(s', issued + {issue.token}) && Legal(s', issued + {issue.token}, issue.now, ops)
            && issue.token in s'.sessions && s'.users == s.users
            && s'.sessions[issue.token].expiresAt == issue.now + IdleOf(c, issue.rememberMe)
            && s'.sessions[issue.token].absoluteExpiresAt == issue.now + LifeOf(c, issue.rememberMe)
    ensures DoAll(c, s, [issue] + ops) == DoAll(c, Do(c, s, issue), ops)
  {
    var all := [issue] + ops;
    assert all[0] == issue && all[1..] == ops;
    LegalHead(s, issued, issue.now, all);
    StepDeadlines(c, s, issued, issue.now, issue);
    LegalStable(s, Do(c, s, issue), issued + {issue.token}, issue.now, ops);
  }

  /**
   A session that is issued and not used is accepted at `now` if and only if no request of its
   user revokes it and `now` is within the idle timeout of its kind: the remember-me one for a
   remember-me session, the standard one otherwise.
   */
  lemma UnusedLifetime(c: Config, s: State, issued: set<Token>, issue: Op, ops: seq<Op>, now: int)
    requires Validated(c) && Ok(s, issued) && issue.Issue? && Legal(s, issued, issue.now, [issue] + ops)
    requires forall i :: 0 <= i < |ops| ==> ops[i].now <= now && (ops[i].Request? ==> ops[i].token != issue.token)
    ensures issue.rememberMe ==>
      (Accepted(DoAll(c, s, [issue] + ops), issue.token, now) <==>
       now <= issue.now + c.rememberIdle && !EverEnds(c, Do(c, s, issue), ops, issue.token))
    ensures !issue.rememberMe ==>
      (Accepted(DoAll(c, s, [issue] + ops), issue.token, now) <==>
       now <= issue.now + c.idle && !EverEnds(c, Do(c, s, issue), ops, issue.token))
  {
    var s' := Do(c, s, issue);
    IssuedRow(c, s, issued, issue, ops);
    if now <= issue.now + IdleOf(c, issue.rememberMe) {
      LastsUnlessEnded(c, s', issued + {issue.token}, issue.now, ops, issue.token, now);
    } else {
      UnusedRowNeverImproves(c, s', issued + {issue.token}, issue.now, ops, issue.token);
    }
  }

  /**
   However a session is used, it is accepted only up to the lifetime of its kind from issue; and
   right after an accepted request it is accepted within half an idle timeout if and only if
   that lifetime is not over and no request of its user ends it.
   */
  lemma AbsoluteLifetime(c: Config, s: State, issued: set<Token>, issue: Op, before: seq<Op>, ops: seq<Op>, now: int)
    requires Validated(c) && Ok(s, issued) && issue.Issue? && Legal(s, issued, issue.now, [issue] + before)
    requires var p := DoAll(c, s, [issue] + before);
             && ops != [] && ops[0].Request? && ops[0].token == issue.token && Accepted(p, issue.token, ops[0].now)
             && Legal(p, IssuedAll(issued, [issue] + before), ops[0].now, ops)
    requires forall i :: 0 <= i < |ops| ==> ops[i].now <= now
    requires now <= ops[0].now + c.idle / 2
    ensures var p := DoAll(c, s, [issue] + before);
            && (issue.rememberMe ==>
                  (Accepted(DoAll(c, p, ops), issue.token, now) <==>
                   now <= issue.now + c.rememberAbsolute && !EverEnds(c, p, ops, issue.token)))
            && (!issue.rememberMe ==>
                  (Accepted(DoAll(c, p, ops), issue.token, now) <==>
                   now <= issue.now + c.absolute && !EverEnds(c, p, ops, issue.token)))
  {
    var p, all := DoAll(c, s, [issue] + before), IssuedAll(issued, [issue] + before);
    IssuedRow(c, s, issued, issue, before);
    RunDeadlines(c, s, issued, issue.now, [issue] + before);
    RunDeadlines(c, Do(c, s, issue), issued + {issue.token}, issue.now, before);
    assert p.sessions[issue.token].absoluteExpiresAt == issue.now + LifeOf(c, issue.rememberMe);
    if now <= issue.now + LifeOf(c, issue.rememberMe) {
      ActiveSessionStays(c, p, all, issue.token, ops, now);
    } else {
      RunDeadlines(c, p, all, ops[0].now, ops);
    }
  }

  /** Half the idle timeout is the exact bound: a request one tick later can find the session expired. */
  lemma HalfIdleIsTight(c: Config, s: State, token: Token, userId: int, t0: int)
    requires Validated(c) && token != "" && token !in s.sessions && userId in s.users
    ensures var s1 := Do(c, s, Issue(token, userId, false, t0));
            var t1 := t0 + c.idle - c.idle / 2;
            && Accepted(s1, token, t1)
            && !Accepted(Do(c, s1, Request(token, Browse, t1)), token, t1 + c.idle / 2 + 1)
  {
  }

  /** Standard sessions are never granted more than one idle timeout beyond the present. */
  ghost predicate ShortLived(c: Config, s: State, standard: set<Token>, now: int) {
    forall t :: t in standard && t in s.sessions ==> s.sessions[t].expiresAt <= now + c.idle
  }

  function StandardAfter(standard: set<Token>, op: Op): set<Token> {
    if op.Issue? && !op.rememberMe then standard + {op.token} else standard
  }

  lemma StepShortLived(c: Config, s: State, issued: set<Token>, standard: set<Token>, last: int, op: Op)
    requires Validated(c) && Ok(s, issued) && Legal(s, issued, last, [op]) && standard <= issued
    requires ShortLived(c, s, standard, last)
    ensures ShortLived(c, Do(c, s, op), StandardAfter(standard, op), op.now)
  {
  }

  function StandardAll(standard: set<Token>, ops: seq<Op>): set<Token>
    decreases |ops|
  {
    if ops == [] then standard else StandardAll(StandardAfter(standard, ops[0]), ops[1..])
  }

  function ClockAll(last: int, ops: seq<Op>): int
    decreases |ops|
  {
    if ops == [] then last else ClockAll(ops[0].now, ops[1..])
  }

  lemma {:induction false} RunShortLived(c: Config, s: State, issued: set<Token>, standard: set<Token>, last: int,
                                         ops: seq<Op>)
    requires Validated(c) && Ok(s, issued) && Legal(s, issued, last, ops) && standard <= issued
    requires ShortLived(c, s, standard, last)
    ensures ShortLived(c, DoAll(c, s, ops), StandardAll(standard, ops), ClockAll(last, ops))
    decreases |ops|
  {
    if ops != [] {
      LegalHead(s, issued, last, ops);
      StepDeadlines(c, s, issued, last, ops[0]);
      StepShortLived(c, s, issued, standard, last, ops[0]);
      LegalStable(s, Do(c, s, ops[0]), IssuedAfter(issued, ops[0]), ops[0].now, ops[1..]);
      RunShortLived(c, Do(c, s, ops[0]), IssuedAfter(issued, ops[0]), StandardAfter(standard, ops[0]), ops[0].now,
          ops[1..]);
    }
  }

  /**
   A standard session that stays silent for more than the idle timeout after a request is
   rejected, whatever anyone else does meanwhile.
   */
  lemma SilentSessionEnds(c: Config, s: State, issued: set<Token>, standard: set<Token>, last: int,
                          token: Token, action: Action, t1: int, ops: seq<Op>, t2: int)
    requires Validated(c) && Ok(s, issued) && standard <= issued && token in standard
    requires ShortLived(c, s, standard, last) && last <= t1
    requires Legal(s, issued, t1, ops)
    requires forall i :: 0 <= i < |ops| && ops[i].Request? ==> ops[i].token != token
    requires t2 > t1 + c.idle
    ensures !Accepted(DoAll(c, Do(c, s, Request(token, action, t1)), ops), token, t2)
  {
    var op := Request(token, action, t1);
    var s' := Do(c, s, op);
    assert Legal(s, issued, last, [op]) by {
      assert [op][1..] == [];
    }
    StepDeadlines(c, s, issued, last, op);
    StepShortLived(c, s, issued, standard, last, op);
    LegalStable(s, s', issued, t1, ops);
    UnusedRowNeverImproves(c, s', issued, t1, ops, token);
  }
}
