/** The session table in place, and the handlers that work on it. */
module SessionService {
  import opened Wrappers
  import opened Sessions

  class SessionTable {
    var rows: Table

    constructor ()
      ensures rows == map[]
    {
      rows := map[];
    }

    /** Fails on a token that is already in the table. */
    method CreateSession(token: Token, s: Session) returns (ok: bool)
      modifies this
      ensures ok <==> token !in old(rows)
      ensures rows == if ok then old(rows)[token := s] else old(rows)
    {
      ok := token !in rows;
      if ok {
        rows := rows[token := s];
      }
    }

    method GetSession(token: Token) returns (r: Option<Session>)
      ensures r == if token in rows then Some(rows[token]) else None
    {
      r := if token in rows then Some(rows[token]) else None;
    }

    method TouchSession(token: Token, expiresAt: int, lastSeenAt: int)
      modifies this
      ensures rows == if token in old(rows)
                      then old(rows)[token := old(rows)[token].(expiresAt := expiresAt, lastSeenAt := lastSeenAt)]
                      else old(rows)
    {
      if token in rows {
        rows := rows[token := rows[token].(expiresAt := expiresAt, lastSeenAt := lastSeenAt)];
      }
    }

    method DeleteSession(token: Token)
      modifies this
      ensures rows == old(rows) - {token}
    {
      rows := rows - {token};
    }

    method DeleteSessionByIDAndUser(token: Token, userId: int) returns (affected: nat)
      modifies this
      ensures affected == if token in old(rows) && old(rows)[token].userId == userId then 1 else 0
      ensures rows == if affected == 1 then old(rows) - {token} else old(rows)
    {
      affected := 0;
      if token in rows && rows[token].userId == userId {
        rows := rows - {token};
        affected := 1;
      }
    }

    method DeleteSessionsByUser(userId: int, current: Token) returns (affected: nat)
      modifies this
      ensures rows == WithoutOthers(old(rows), userId, current)
      ensures forall k :: k in rows <==> k in old(rows) && (old(rows)[k].userId != userId || k == current)
      ensures forall k :: k in rows ==> rows[k] == old(rows)[k]
      ensures affected == |old(rows).Keys - rows.Keys|
    {
      var kept := WithoutOthers(rows, userId, current);
      affected := |rows.Keys - kept.Keys|;
      rows := kept;
    }

    method PurgeExpiredSessions(now: int)
      modifies this
      ensures rows == Purged(old(rows), now)
      ensures forall k :: k in rows <==>
        k in old(rows) && now <= old(rows)[k].expiresAt && now <= old(rows)[k].absoluteExpiresAt
      ensures forall k :: k in rows ==> rows[k] == old(rows)[k]
    {
      rows := map k | k in rows && !(rows[k].expiresAt < now || rows[k].absoluteExpiresAt < now) :: rows[k];
    }
  }

  datatype Verdict = Unauthenticated | SessionExpired | UserNotFound | Authenticated(userId: int)

  /** The interceptor and the session handlers, given the clock and the users that exist. */
  class AuthService {
    const table: SessionTable
    const cfg: Config
    var users: set<int>

    ghost function View(): State
      reads this, table
    {
      State(table.rows, users)
    }

    constructor (cfg: Config)
      ensures fresh(table) && this.cfg == cfg && View() == State(map[], {})
    {
      this.cfg := cfg;
      table := new SessionTable();
      users := {};
    }

    method IssueSession(token: Token, userId: int, rememberMe: bool, now: int) returns (ok: bool)
      modifies table
      ensures ok <==> token !in old(table.rows)
      ensures View() == Do(cfg, old(View()), Issue(token, userId, rememberMe, now))
      ensures ok && rememberMe ==>
        table.rows == old(table.rows)[token := Session(userId, now + cfg.rememberIdle, now, now + cfg.rememberAbsolute)]
      ensures ok && !rememberMe ==>
        table.rows == old(table.rows)[token := Session(userId, now + cfg.idle, now, now + cfg.absolute)]
      ensures !ok ==> table.rows == old(table.rows)
    {
      var idleTimeout, absTimeout := cfg.idle, cfg.absolute;
      if rememberMe {
        idleTimeout, absTimeout := cfg.rememberIdle, cfg.rememberAbsolute;
      }
      ok := table.CreateSession(token, Session(userId, now + idleTimeout, now, now + absTimeout));
    }

    method Authenticate(token: Token, now: int) returns (v: Verdict)
      modifies table
      ensures View() == AfterAuthenticate(cfg, old(View()), token, now)
      ensures v.Authenticated? <==> Accepted(old(View()), token, now)
      ensures v.Authenticated? ==> token in table.rows && v.userId == table.rows[token].userId
      // which verdict, in terms of the row
      ensures v.Unauthenticated? <==> token == "" || token !in old(table.rows)
      ensures v.SessionExpired? <==>
        && token != "" && token in old(table.rows)
        && (now > old(table.rows)[token].absoluteExpiresAt || now > old(table.rows)[token].expiresAt)
      ensures v.Authenticated? ==> v.userId == old(table.rows)[token].userId && v.userId in users
      ensures v.UserNotFound? ==> old(table.rows)[token].userId !in users
      // what it leaves
      ensures v.Unauthenticated? ==> table.rows == old(table.rows)
      ensures v.SessionExpired? ==> table.rows == old(table.rows) - {token}
      ensures v.Authenticated? || v.UserNotFound? ==>
        var was := old(table.rows)[token];
        && table.rows == old(table.rows)[token := table.rows[token]]
        && table.rows[token].userId == was.userId && table.rows[token].absoluteExpiresAt == was.absoluteExpiresAt
        && (now <= was.expiresAt - cfg.idle / 2 ==> table.rows[token] == was)
        && (now > was.expiresAt - cfg.idle / 2 ==>
              && table.rows[token].lastSeenAt == now
              && (now + cfg.idle <= was.absoluteExpiresAt ==> table.rows[token].expiresAt == now + cfg.idle)
              && (now + cfg.idle > was.absoluteExpiresAt ==> table.rows[token].expiresAt == was.absoluteExpiresAt))
    {
      if token == "" {
        return Unauthenticated;
      }
      var row := table.GetSession(token);
      if row.None? {
        return Unauthenticated;
      }
      var session := row.value;
      if now > session.absoluteExpiresAt {
        table.DeleteSession(token);
        return SessionExpired;
      }
      if now > session.expiresAt {
        table.DeleteSession(token);
        return SessionExpired;
      }
      if now > session.expiresAt - cfg.idle / 2 {
        var newIdle := now + cfg.idle;
        if newIdle > session.absoluteExpiresAt {
          newIdle := session.absoluteExpiresAt;
        }
        table.TouchSession(token, newIdle, now);
      }
      if session.userId !in users {
        return UserNotFound;
      }
      v := Authenticated(session.userId);
    }

    /** One request through the interceptor to its handler. */
    method Serve(token: Token, action: Action, now: int) returns (v: Verdict)
      modifies table
      ensures View() == Do(cfg, old(View()), Request(token, action, now))
      ensures v.Authenticated? <==> Accepted(old(View()), token, now)
      // which rows it leaves
      ensures v.Authenticated? ==>
        && token in old(table.rows) && v.userId == old(table.rows)[token].userId && v.userId in users
        && forall k :: k in table.rows <==>
             && k in old(table.rows)
             && !(action.Logout? && k == token)
             && !(action.Revoke? && k == action.target && k != "" && old(table.rows)[k].userId == v.userId)
             && !(action.RevokeOthers? && k != token && old(table.rows)[k].userId == v.userId)
      ensures forall k :: k in table.rows && k != token ==> k in old(table.rows) && table.rows[k] == old(table.rows)[k]
      ensures !v.Authenticated? ==>
        forall k :: k in table.rows <==> k in old(table.rows) && !(v.SessionExpired? && k == token)
    {
      v := Authenticate(token, now);
      if !v.Authenticated? {
        return;
      }
      match action
      case Browse =>
      case Logout => table.DeleteSession(token);
      case Revoke(target) =>
        if target != "" {
          var _ := table.DeleteSessionByIDAndUser(target, v.userId);
        }
      case RevokeOthers => var _ := table.DeleteSessionsByUser(v.userId, token);
    }

    method PurgeSessions(now: int)
      modifies table
      ensures View() == Do(cfg, old(View()), Purge(now))
    {
      table.PurgeExpiredSessions(now);
    }
  }
}
