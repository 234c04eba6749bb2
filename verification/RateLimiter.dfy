/** The rate limiter in place, and the login handler that consults it. */
module RateLimiter {
  import opened Wrappers
  import opened RateLimit

  /**
   Slides the failures after `start` to the front of their own buffer, the way
   appending to a zero-length slice of it does.
   */
  method CompactInPlace(buffer: array<int>, start: int) returns (kept: nat)
    modifies buffer
    ensures kept <= buffer.Length
    ensures buffer[..kept] == Recent(old(buffer[..]), start)
  {
    kept := 0;
    ghost var was := buffer[..];
    for i := 0 to buffer.Length
      invariant kept <= i
      invariant buffer[i..] == was[i..]
      invariant buffer[..kept] == Recent(was[..i], start)
    {
      var t := buffer[i];
      assert t == was[i] by {
        assert buffer[i..][0] == was[i..][0];
      }
      assert was[..i + 1][..i] == was[..i];
      ghost var front := buffer[..kept];
      if t > start {
        buffer[kept] := t;
        kept := kept + 1;
        assert buffer[..kept] == front + [t];
      }
      assert buffer[i + 1..] == was[i + 1..] by {
        forall j | i + 1 <= j < buffer.Length
          ensures buffer[j] == was[j]
        {
          assert was[j] == was[i..][j - i];
        }
      }
    }
    assert was[..buffer.Length] == was;
  }

  method Compacted(failures: seq<int>, start: int) returns (recent: seq<int>)
    ensures recent == Recent(failures, start)
  {
    var buffer := new int[|failures|](i requires 0 <= i < |failures| => failures[i]);
    assert buffer[..] == failures;
    var kept := CompactInPlace(buffer, start);
    recent := buffer[..kept];
  }

  lemma {:induction false} RecentOnly(failures: seq<int>, start: int, i: nat)
    requires i < |Recent(failures, start)|
    ensures Recent(failures, start)[i] in failures && Recent(failures, start)[i] > start
    decreases |failures|
  {
    var n := |failures| - 1;
    if i < |Recent(failures[..n], start)| {
      RecentOnly(failures[..n], start, i);
    }
  }

  /** There is a recent failure exactly when some failure is after `start`. */
  lemma RecentIff(failures: seq<int>, start: int)
    ensures Recent(failures, start) != [] <==> exists i :: 0 <= i < |failures| && failures[i] > start
  {
    if Recent(failures, start) != [] {
      RecentOnly(failures, start, 0);
    }
    if i :| 0 <= i < |failures| && failures[i] > start {
      RecentSome(failures, i, start);
    }
  }

  /** The key is locked at that time. */
  predicate Locks(records: Records, key: string, now: int) {
    key != "" && key in records && now < records[key].lockedUntil
  }

  /** Nothing but records that are unlocked and have no failure of the last fifteen minutes is gone. */
  ghost predicate OnlyStaleGone(was: Records, records: Records, now: int) {
    && (forall k :: k in records ==> k in was && records[k] == was[k])
    && (forall k :: k in was && k !in records ==>
          now > was[k].lockedUntil && forall i :: 0 <= i < |was[k].failures| ==>
            was[k].failures[i] <= now - 900_000_000_000)
  }

  function FailuresOf(records: Records, key: string): seq<int> {
    if key in records then records[key].failures else []
  }

  /** The key has one more failure, besides those of the last fifteen minutes; others lose at most stale records. */
  ghost predicate FailureAdded(was: Records, records: Records, key: string, now: int) {
    && (key != "" ==>
          && key in records
          && records[key].failures == Recent(FailuresOf(was, key), now - 900_000_000_000) + [now])
    && (forall k :: k in records && (key == "" || k != key) ==> k in was && records[k] == was[k])
    && (forall k :: k in was && k !in records ==>
          now > was[k].lockedUntil && forall i :: 0 <= i < |was[k].failures| ==>
            was[k].failures[i] <= now - 900_000_000_000)
  }

  /** Evicting first makes no difference to what a failure leaves. */
  lemma EvictedThenAdded(was: Records, mid: Records, records: Records, key: string, at: int, now: int)
    requires OnlyStaleGone(was, mid, at) && FailureAdded(mid, records, key, now) && at <= now
    ensures FailureAdded(was, records, key, now)
  {
    if key in was && key !in mid {
      RecentIff(was[key].failures, now - WINDOW);
    }
  }

  /** One of the two maps of records. */
  class AttemptTable {
    var records: Records

    constructor ()
      ensures records == map[]
    {
      records := map[];
    }

    method CheckKey(key: string, now: int) returns (wait: int)
      ensures wait == WaitFor(records, key, now)
      ensures wait == if Locks(records, key, now) then records[key].lockedUntil - now else 0
    {
      if key == "" {
        return 0;
      }
      if key !in records {
        return 0;
      }
      var rec := records[key];
      if now < rec.lockedUntil {
        return rec.lockedUntil - now;
      }
      return 0;
    }

    method RecordFailureKey(key: string, now: int, overflow: int) returns (wait: int)
      modifies this
      ensures records == Failed(old(records), key, now, overflow)
      ensures wait == FailedWait(old(records), key, now, overflow)
      ensures key == "" ==> records == old(records) && wait == 0
      ensures key != "" ==>
        var was := if key in old(records) then old(records)[key] else AttemptRecord([], 0);
        && key in records && records == old(records)[key := records[key]]
        && records[key].failures == Recent(was.failures, now - 900_000_000_000) + [now]
        && var count := |records[key].failures|;
           && (count < 5 ==> wait == 0 && records[key].lockedUntil == was.lockedUntil)
           && (count >= 5 ==> records[key].lockedUntil == now + wait)
           && (count == 5 ==> wait == 60_000_000_000)
           && (count == 6 ==> wait == 120_000_000_000)
           && (count == 7 ==> wait == 240_000_000_000)
           && (count == 8 ==> wait == 480_000_000_000)
           && (9 <= count <= 32 ==> wait == 900_000_000_000)
    {
      if key == "" {
        return 0;
      }
      var rec := if key in records then records[key] else AttemptRecord([], 0);
      var recent := Compacted(rec.failures, now - WINDOW);
      var failures := recent + [now];
      rec := rec.(failures := failures);
      if |failures| >= THRESHOLD {
        wait := Backoff(|failures|, overflow);
        BackoffTable(|failures|, overflow);
        rec := rec.(lockedUntil := now + wait);
      } else {
        wait := 0;
      }
      records := records[key := rec];
    }

    /** Deletes while ranging over the map, as Go allows. */
    method EvictExpired(now: int)
      modifies this
      ensures records == Evicted(old(records), now)
      ensures forall k :: k in records <==>
        k in old(records)
        && (now <= old(records)[k].lockedUntil
            || exists i :: 0 <= i < |old(records)[k].failures| && old(records)[k].failures[i] > now - 900_000_000_000)
      ensures OnlyStaleGone(old(records), records, now)
    {
      var todo := records.Keys;
      ghost var was := records;
      while todo != {}
        invariant todo <= was.Keys
        invariant forall k :: k in records <==> k in was && (k in todo || !Stale(was[k], now))
        invariant forall k :: k in records ==> records[k] == was[k]
        decreases todo
      {
        var k :| k in todo;
        todo := todo - {k};
        if now > records[k].lockedUntil {
          var hasRecent := HasRecent(records[k].failures, now - WINDOW);
          if !hasRecent {
            records := records - {k};
          }
        }
      }
      forall k | k in was
        ensures Recent(was[k].failures, now - WINDOW) != [] <==>
                exists i :: 0 <= i < |was[k].failures| && was[k].failures[i] > now - 900_000_000_000
      {
        RecentIff(was[k].failures, now - WINDOW);
      }
    }

    method Forget(key: string)
      modifies this
      ensures records == old(records) - {key}
    {
      records := records - {key};
    }
  }

  method HasRecent(failures: seq<int>, start: int) returns (found: bool)
    ensures found <==> Recent(failures, start) != []
    ensures found <==> exists i :: 0 <= i < |failures| && failures[i] > start
  {
    RecentIff(failures, start);
    found := false;
    var i := 0;
    while i < |failures|
      invariant 0 <= i <= |failures| && !found
      invariant Recent(failures[..i], start) == []
    {
      assert failures[..i + 1][..i] == failures[..i];
      if failures[i] > start {
        found := true;
        RecentSome(failures, i, start);
        return;
      }
      i := i + 1;
    }
    assert failures[..i] == failures;
  }

  lemma {:induction false} RecentSome(failures: seq<int>, i: nat, start: int)
    requires i < |failures| && failures[i] > start
    ensures Recent(failures, start) != []
    decreases |failures|
  {
    if i < |failures| - 1 {
      RecentSome(failures[..|failures| - 1], i, start);
    }
  }

  /** `overflow` is what the platform makes of a float64 outside the int64 range. */
  class RateLimiter {
    const users: AttemptTable
    const ips: AttemptTable
    const overflow: int

    ghost predicate Valid() {
      users != ips
    }

    ghost function State(): Limiter
      reads users, ips
    {
      Limiter(users.records, ips.records)
    }

    constructor (overflow: int)
      ensures Valid() && fresh(users) && fresh(ips) && this.overflow == overflow
      ensures State() == Limiter(map[], map[])
    {
      users := new AttemptTable();
      ips := new AttemptTable();
      this.overflow := overflow;
    }

    method Check(username: string, ip: string, now: int) returns (locked: bool, retryAfter: int)
      requires Valid()
      modifies users, ips
      ensures State() == Do(old(State()), Op.Check(username, ip, now), overflow)
      ensures retryAfter == Answer(old(State()), Op.Check(username, ip, now), overflow)
      ensures locked <==> retryAfter > 0
      ensures locked <==> Locks(old(users.records), username, now) || Locks(old(ips.records), ip, now)
      ensures Locks(old(users.records), username, now) ==> retryAfter >= old(users.records)[username].lockedUntil - now
      ensures Locks(old(ips.records), ip, now) ==> retryAfter >= old(ips.records)[ip].lockedUntil - now
      ensures locked ==>
        || (Locks(old(users.records), username, now) && retryAfter == old(users.records)[username].lockedUntil - now)
        || (Locks(old(ips.records), ip, now) && retryAfter == old(ips.records)[ip].lockedUntil - now)
      ensures OnlyStaleGone(old(users.records), users.records, now) && OnlyStaleGone(old(ips.records), ips.records, now)
    {
      users.EvictExpired(now);
      ips.EvictExpired(now);
      var userWait := users.CheckKey(username, now);
      var ipWait := ips.CheckKey(ip, now);
      var maxWait := userWait;
      if ipWait > maxWait {
        maxWait := ipWait;
      }
      if maxWait > 0 {
        return true, maxWait;
      }
      return false, 0;
    }

    method RecordFailure(username: string, ip: string, now: int) returns (wait: int)
      requires Valid()
      modifies users, ips
      ensures State() == Do(old(State()), Op.Failure(username, ip, now), overflow)
      ensures wait == Answer(old(State()), Op.Failure(username, ip, now), overflow)
      ensures FailureAdded(old(users.records), users.records, username, now)
      ensures FailureAdded(old(ips.records), ips.records, ip, now)
    {
      users.EvictExpired(now);
      ips.EvictExpired(now);
      ghost var freshUsers, freshIps := users.records, ips.records;
      var userWait := users.RecordFailureKey(username, now, overflow);
      var ipWait := ips.RecordFailureKey(ip, now, overflow);
      wait := userWait;
      if ipWait > wait {
        wait := ipWait;
      }
      EvictedThenAdded(old(users.records), freshUsers, users.records, username, now, now);
      EvictedThenAdded(old(ips.records), freshIps, ips.records, ip, now, now);
    }

    method RecordSuccess(username: string)
      requires Valid()
      modifies users
      ensures State() == Do(old(State()), Op.Success(username), overflow)
      ensures users.records == old(users.records) - {username}
    {
      users.Forget(username);
    }
  }

  datatype LoginResult = InvalidArgument | RateLimited(retrySeconds: int) | InvalidCredentials | LoggedIn

  /** The lockouts in nanoseconds: one, two, four and eight minutes, and then a quarter of an hour. */
  lemma BackoffTable(count: nat, overflow: int)
    requires 5 <= count
    ensures count == 5 ==> Backoff(count, overflow) == 60_000_000_000
    ensures count == 6 ==> Backoff(count, overflow) == 120_000_000_000
    ensures count == 7 ==> Backoff(count, overflow) == 240_000_000_000
    ensures count == 8 ==> Backoff(count, overflow) == 480_000_000_000
    ensures 9 <= count <= 32 ==> Backoff(count, overflow) == 900_000_000_000
  {
    Pow2Values();
    if 9 <= count <= 32 {
      BackoffExact(count, overflow);
    }
  }

  /** Seconds to wait, rounded up and never below one. */
  function RetrySeconds(retryAfter: int): (r: int)
    ensures r >= 1 && retryAfter <= r * 1_000_000_000
    ensures retryAfter > 0 ==> (r - 1) * 1_000_000_000 < retryAfter
  {
    var seconds := (retryAfter + 999_999_999) / 1_000_000_000;
    if seconds < 1 then 1 else seconds
  }

  /** One password login as the limiter sees it. */
  datatype Attempt = Attempt(username: string, password: string, ip: string, checkAt: int, recordAt: int, correct: bool)

  /** What it does to the limiter. */
  function LoginOps(l: Limiter, a: Attempt, overflow: int): seq<Op> {
    if a.username == "" || a.password == "" then []
    else if Answer(l, Op.Check(a.username, a.ip, a.checkAt), overflow) > 0 then [Op.Check(a.username, a.ip, a.checkAt)]
    else [Op.Check(a.username, a.ip, a.checkAt),
          if a.correct then Op.Success(a.username) else Op.Failure(a.username, a.ip, a.recordAt)]
  }

  /** A failure is recorded only behind an unlocked check. */
  lemma LoginIsGated(l: Limiter, a: Attempt, overflow: int)
    ensures Gated(l, None, LoginOps(l, a, overflow), overflow)
  {
    var ops := LoginOps(l, a, overflow);
    if |ops| == 2 && !a.correct {
      TwoOps(l, ops[0], ops[1], [], a.checkAt, overflow);
      assert ops == [ops[0], ops[1]] + [];
    }
  }

  /** What a run of logins, one after the other, does to the limiter. */
  function AllLoginOps(l: Limiter, attempts: seq<Attempt>, overflow: int): seq<Op>
    decreases |attempts|
  {
    if attempts == [] then []
    else
      var ops := LoginOps(l, attempts[0], overflow);
      ops + AllLoginOps(DoAll(l, ops, overflow), attempts[1..], overflow)
  }

  /** Each login reads the clock twice, and not before the one before it. */
  predicate InOrder(last: int, attempts: seq<Attempt>)
    decreases |attempts|
  {
    attempts != [] ==>
      last <= attempts[0].checkAt <= attempts[0].recordAt && InOrder(attempts[0].recordAt, attempts[1..])
  }

  lemma {:induction false} GatedConcat(l: Limiter, gate: Option<(string, string)>, xs: seq<Op>, ys: seq<Op>,
                                       overflow: int)
    requires Gated(l, gate, xs, overflow) && Gated(DoAll(l, xs, overflow), None, ys, overflow)
    ensures Gated(l, gate, xs + ys, overflow)
    decreases |xs|
  {
    if xs == [] {
      assert xs + ys == ys;
    } else {
      GatedConcat(Do(l, xs[0], overflow), Opens(l, xs[0], overflow), xs[1..], ys, overflow);
      assert (xs + ys)[1..] == xs[1..] + ys;
    }
  }

  /** Any run of logins is a gated run. */
  lemma {:induction false} LoginsAreGated(l: Limiter, attempts: seq<Attempt>, overflow: int)
    ensures Gated(l, None, AllLoginOps(l, attempts, overflow), overflow)
    decreases |attempts|
  {
    if attempts != [] {
      var ops := LoginOps(l, attempts[0], overflow);
      LoginIsGated(l, attempts[0], overflow);
      LoginsAreGated(DoAll(l, ops, overflow), attempts[1..], overflow);
      GatedConcat(l, None, ops, AllLoginOps(DoAll(l, ops, overflow), attempts[1..], overflow), overflow);
    }
  }

  lemma {:induction false} ClockedEarlier(a: int, b: int, ops: seq<Op>)
    requires a <= b && Clocked(b, ops)
    ensures Clocked(a, ops)
    decreases |ops|
  {
    if ops != [] && ops[0].Success? {
      ClockedEarlier(a, b, ops[1..]);
    }
  }

  lemma LoginIsClocked(l: Limiter, a: Attempt, last: int, rest: seq<Op>, overflow: int)
    requires last <= a.checkAt <= a.recordAt && Clocked(a.recordAt, rest)
    ensures Clocked(last, LoginOps(l, a, overflow) + rest)
  {
    var ops := LoginOps(l, a, overflow);
    if |ops| == 0 {
      assert ops + rest == rest;
      ClockedEarlier(last, a.recordAt, rest);
    } else if |ops| == 1 {
      ClockedEarlier(a.checkAt, a.recordAt, rest);
      assert (ops + rest)[1..] == rest;
    } else {
      ClockedEarlier(a.checkAt, a.recordAt, rest);
      TwoOps(l, ops[0], ops[1], rest, last, overflow);
      assert ops + rest == [ops[0], ops[1]] + rest;
    }
  }

  lemma {:induction false} LoginsAreClocked(l: Limiter, attempts: seq<Attempt>, last: int, overflow: int)
    requires InOrder(last, attempts)
    ensures Clocked(last, AllLoginOps(l, attempts, overflow))
    decreases |attempts|
  {
    if attempts != [] {
      var l' := DoAll(l, LoginOps(l, attempts[0], overflow), overflow);
      LoginsAreClocked(l', attempts[1..], attempts[0].recordAt, overflow);
      LoginIsClocked(l, attempts[0], last, AllLoginOps(l', attempts[1..], overflow), overflow);
    }
  }

  /**
   Whatever logins are tried one after the other, from any users and addresses: the limiter
   never holds more than eight failures of a key and never asks for more than eight minutes,
   and it answers as if it kept every failure since the last success.
   */
  lemma LoginsStayBelowCap(attempts: seq<Attempt>, overflow: int)
    requires InOrder(0, attempts)
    ensures var ops := AllLoginOps(NEW_LIMITER, attempts, overflow);
            && SmallRecords(DoAll(NEW_LIMITER, ops, overflow).users)
            && SmallRecords(DoAll(NEW_LIMITER, ops, overflow).ips)
            && (forall i :: 0 <= i < |ops| ==> Answers(NEW_LIMITER, ops, overflow)[i] <= 8 * MINUTE)
            && Answers(NEW_LIMITER, ops, overflow) == SpecAnswers(NEW_LEDGER, ops, overflow)
  {
    LoginsAreGated(NEW_LIMITER, attempts, overflow);
    LoginsAreClocked(NEW_LIMITER, attempts, 0, overflow);
    GatedRunsStayBelowCap(AllLoginOps(NEW_LIMITER, attempts, overflow), overflow);
    ForgettingIsUnobservable(AllLoginOps(NEW_LIMITER, attempts, overflow), overflow);
  }

  /**
   The password login handler; the two clock readings and the verdict on the credentials
   come from outside. A user that does not exist is a wrong password.
   */
  method Login(rl: RateLimiter, a: Attempt)
    returns (r: LoginResult)
    requires rl.Valid()
    modifies rl.users, rl.ips
    ensures rl.State() == DoAll(old(rl.State()), LoginOps(old(rl.State()), a, rl.overflow), rl.overflow)
    ensures r.InvalidArgument? <==> a.username == "" || a.password == ""
    ensures r.RateLimited? ==>
      (r.retrySeconds - 1) * 1_000_000_000 < Answer(old(rl.State()), Op.Check(a.username, a.ip, a.checkAt),
          rl.overflow) <= r.retrySeconds * 1_000_000_000
    ensures !r.InvalidArgument? ==>
      (r.RateLimited? <==> Answer(old(rl.State()), Op.Check(a.username, a.ip, a.checkAt), rl.overflow) > 0)
    // which result, in terms of the records
    ensures r.RateLimited? <==>
      && a.username != "" && a.password != ""
      && (Locks(old(rl.users.records), a.username, a.checkAt) || Locks(old(rl.ips.records), a.ip, a.checkAt))
    ensures r.LoggedIn? <==>
      && a.username != "" && a.password != "" && a.correct
      && !Locks(old(rl.users.records), a.username, a.checkAt) && !Locks(old(rl.ips.records), a.ip, a.checkAt)
    ensures r.InvalidCredentials? <==>
      && a.username != "" && a.password != "" && !a.correct
      && !Locks(old(rl.users.records), a.username, a.checkAt) && !Locks(old(rl.ips.records), a.ip, a.checkAt)
    // what it leaves
    ensures r.InvalidArgument? ==> rl.users.records == old(rl.users.records) && rl.ips.records == old(rl.ips.records)
    ensures r.RateLimited? || r.LoggedIn? ==> OnlyStaleGone(old(rl.ips.records), rl.ips.records, a.checkAt)
    ensures r.RateLimited? ==> OnlyStaleGone(old(rl.users.records), rl.users.records, a.checkAt)
    ensures r.LoggedIn? ==>
      && a.username !in rl.users.records
      && OnlyStaleGone(old(rl.users.records) - {a.username}, rl.users.records, a.checkAt)
    ensures r.InvalidCredentials? && a.checkAt <= a.recordAt ==>
      && FailureAdded(old(rl.users.records), rl.users.records, a.username, a.recordAt)
      && FailureAdded(old(rl.ips.records), rl.ips.records, a.ip, a.recordAt)
  {
    if a.username == "" || a.password == "" {
      return InvalidArgument;
    }
    ghost var l := rl.State();
    ghost var ops := LoginOps(l, a, rl.overflow);
    if |ops| == 2 {
      TwoOps(l, ops[0], ops[1], [], a.checkAt, rl.overflow);
      assert ops == [ops[0], ops[1]] + [];
    }
    var locked, retryAfter := rl.Check(a.username, a.ip, a.checkAt);
    ghost var users, ips := rl.users.records, rl.ips.records;
    if locked {
      return RateLimited(RetrySeconds(retryAfter));
    }
    if !a.correct {
      var _ := rl.RecordFailure(a.username, a.ip, a.recordAt);
      if a.checkAt <= a.recordAt {
        EvictedThenAdded(old(rl.users.records), users, rl.users.records, a.username, a.checkAt, a.recordAt);
        EvictedThenAdded(old(rl.ips.records), ips, rl.ips.records, a.ip, a.checkAt, a.recordAt);
      }
      return InvalidCredentials;
    }
    rl.RecordSuccess(a.username);
    return LoggedIn;
  }
}
