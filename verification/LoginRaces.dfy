/**
 Password logins without the assumption that they are serialized: a login checks the
 limiter and reports its outcome in two steps, while others do the same. How many
 failures a key can collect then depends on how many of its logins are under way.
 */
module LoginRaces {
  import opened Wrappers
  import opened RateLimit
  import RateLimiter

  /** `users` and `ips` have the logins that passed the check and have not reported yet. */
  datatype Race = Race(limiter: Limiter, users: map<nat, string>, ips: map<nat, string>, clock: int)

  datatype Step =
    | Enter(login: nat, user: string, ip: string, now: int)
    | Fail(login: nat, now: int)
    | Succeed(login: nat)
    | Abort(login: nat)

  predicate Enabled(s: Race, step: Step) {
    match step
    case Enter(q, _, _, now) => now >= s.clock && q !in s.users && q !in s.ips
    case Fail(q, now) => now >= s.clock && q in s.users && q in s.ips
    case Succeed(q) => q in s.users && q in s.ips
    case Abort(q) => q in s.users && q in s.ips
  }

  /** A login that finds one of its keys locked goes no further; one that ends in an internal error reports nothing. */
  function Apply(s: Race, step: Step, overflow: int): Race
    requires Enabled(s, step)
  {
    match step
    case Enter(q, user, ip, now) =>
      var check := Op.Check(user, ip, now);
      var l := Do(s.limiter, check, overflow);
      if Answer(s.limiter, check, overflow) > 0 then Race(l, s.users, s.ips, now)
      else Race(l, s.users[q := user], s.ips[q := ip], now)
    case Fail(q, now) =>
      Race(Do(s.limiter, Op.Failure(s.users[q], s.ips[q], now), overflow), s.users - {q}, s.ips - {q}, now)
    case Succeed(q) =>
      Race(Do(s.limiter, Op.Success(s.users[q]), overflow), s.users - {q}, s.ips - {q}, s.clock)
    case Abort(q) => Race(s.limiter, s.users - {q}, s.ips - {q}, s.clock)
  }

  /** The logins of a key that are under way. */
  function Under(holders: map<nat, string>, key: string): set<nat> {
    set q | q in holders && holders[q] == key
  }

  /** At most `m` logins of any one user or address are under way. */
  ghost predicate Within(s: Race, m: nat) {
    && (forall k :: k != "" ==> |Under(s.users, k)| <= m)
    && (forall k :: k != "" ==> |Under(s.ips, k)| <= m)
  }

  ghost predicate Runs(s: Race, steps: seq<Step>, m: nat, overflow: int)
    decreases |steps|
  {
    && Within(s, m)
    && (steps != [] ==> Enabled(s, steps[0]) && Runs(Apply(s, steps[0], overflow), steps[1..], m, overflow))
  }

  ghost function RunAll(s: Race, steps: seq<Step>, m: nat, overflow: int): Race
    requires Runs(s, steps, m, overflow)
    decreases |steps|
  {
    if steps == [] then s else RunAll(Apply(s, steps[0], overflow), steps[1..], m, overflow)
  }

  const NOBODY := Race(NEW_LIMITER, map[], map[], 0)

  // ----- uninterrupted, the steps are the serialized login -----

  /** A login that enters and reports at once does to the limiter what the handler does. */
  lemma PairIsLogin(s: Race, q: nat, a: RateLimiter.Attempt, overflow: int)
    requires a.username != "" && a.password != "" && a.checkAt <= a.recordAt
    requires Enabled(s, Enter(q, a.username, a.ip, a.checkAt))
    ensures var entered := Apply(s, Enter(q, a.username, a.ip, a.checkAt), overflow);
            var end := if a.correct then Succeed(q) else Fail(q, a.recordAt);
            var done := DoAll(s.limiter, RateLimiter.LoginOps(s.limiter, a, overflow), overflow);
            if q in entered.users
            then Enabled(entered, end) && Apply(entered, end, overflow).limiter == done
            else entered.limiter == done
  {
    var ops := RateLimiter.LoginOps(s.limiter, a, overflow);
    if |ops| == 2 {
      TwoOps(s.limiter, ops[0], ops[1], [], a.checkAt, overflow);
      assert ops == [ops[0], ops[1]] + [];
    } else {
      assert ops[1..] == [];
    }
  }

  // ----- the logins under way -----

  lemma UnderPut(holders: map<nat, string>, q: nat, key: string, k: string)
    requires q !in holders
    ensures Under(holders[q := key], k) == if k == key then Under(holders, k) + {q} else Under(holders, k)
    ensures |Under(holders[q := key], k)| == |Under(holders, k)| + if k == key then 1 else 0
  {
    assert Under(holders[q := key], k) == if k == key then Under(holders, k) + {q} else Under(holders, k);
  }

  lemma UnderDrop(holders: map<nat, string>, q: nat, k: string)
    requires q in holders
    ensures |Under(holders - {q}, k)| == |Under(holders, k)| - if k == holders[q] then 1 else 0
  {
    assert Under(holders - {q}, k) == Under(holders, k) - {q};
  }

  // ----- one record -----

  lemma {:induction false} RecentShrinks(failures: seq<int>, a: int, b: int)
    requires a <= b
    ensures |Recent(failures, b)| <= |Recent(failures, a)| <= |failures|
    decreases |failures|
  {
    if failures != [] {
      RecentShrinks(failures[..|failures| - 1], a, b);
    }
  }

  /** The number of failures in the window that ends now. */
  function Fresh(rec: AttemptRecord, now: int): nat {
    |Recent(rec.failures, now - WINDOW)|
  }

  lemma {:induction false} NoneRecent(failures: seq<int>, start: int)
    requires forall i :: 0 <= i < |failures| ==> failures[i] <= start
    ensures Recent(failures, start) == []
    decreases |failures|
  {
    if failures != [] {
      NoneRecent(failures[..|failures| - 1], start);
    }
  }

  /** The last failure is the latest. */
  ghost predicate Ordered(failures: seq<int>, clock: int) {
    forall i :: 0 <= i < |failures| ==> failures[i] <= failures[|failures| - 1] <= clock
  }

  /**
   A record with nine failures is locked for as long as they count, so whoever adds to it is
   one of the `under` logins already under way.
   */
  ghost predicate RecordOk(rec: AttemptRecord, under: nat, m: nat, clock: int) {
    && Ordered(rec.failures, clock)
    && |rec.failures| <= 8 + m
    && (|rec.failures| >= 9 ==> rec.lockedUntil == rec.failures[|rec.failures| - 1] + WINDOW)
    && (Fresh(rec, clock) >= 9 ==> Fresh(rec, clock) + under <= 8 + m)
  }

  lemma RecordLater(rec: AttemptRecord, under: nat, under': nat, m: nat, clock: int, now: int)
    requires RecordOk(rec, under, m, clock) && clock <= now && under' <= under
    ensures RecordOk(rec, under', m, now)
  {
    RecentShrinks(rec.failures, clock - WINDOW, now - WINDOW);
  }

  /** Nine failures that still count mean a lock. */
  lemma NineLock(rec: AttemptRecord, under: nat, m: nat, now: int)
    requires RecordOk(rec, under, m, now) && Fresh(rec, now) >= 9
    ensures now < rec.lockedUntil
  {
    RecentShrinks(rec.failures, now - WINDOW, now - WINDOW);
    if rec.failures[|rec.failures| - 1] <= now - WINDOW {
      NoneRecent(rec.failures, now - WINDOW);
    }
  }

  /**
   The lockout is the longest from nine failures on, as long as their number is in range or the
   conversion saturates.
   */
  predicate Capped(m: nat, overflow: int) {
    m <= 24 || overflow >= MAX_LOCKOUT
  }

  lemma BackoffCapped(count: nat, m: nat, overflow: int)
    requires 9 <= count <= 8 + m && Capped(m, overflow)
    ensures Backoff(count, overflow) == MAX_LOCKOUT
  {
    BackoffExact(count, overflow);
  }

  lemma {:induction false} RecentOrdered(failures: seq<int>, start: int, clock: int)
    requires forall i :: 0 <= i < |failures| ==> failures[i] <= clock
    ensures forall i :: 0 <= i < |Recent(failures, start)| ==> start < Recent(failures, start)[i] <= clock
    decreases |failures|
  {
    if failures != [] {
      RecentOrdered(failures[..|failures| - 1], start, clock);
    }
  }

  /** Recording a failure of a login that was under way. */
  lemma FailureOk(rec: AttemptRecord, under: nat, m: nat, now: int, overflow: int)
    requires RecordOk(rec, under, m, now) && 1 <= under <= m && Capped(m, overflow)
    ensures RecordOk(AfterFailure(rec, now, overflow), under - 1, m, now)
  {
    var kept := Recent(rec.failures, now - WINDOW);
    var failures := kept + [now];
    RecentOrdered(rec.failures, now - WINDOW, now);
    RecentShrinks(failures, now - WINDOW, now - WINDOW);
    if |failures| >= 9 {
      BackoffCapped(|failures|, m, overflow);
    }
  }

  // ----- one of the two maps -----

  ghost predicate SideOk(records: Records, holders: map<nat, string>, m: nat, clock: int) {
    forall k :: k in records ==> k != "" && RecordOk(records[k], |Under(holders, k)|, m, clock)
  }

  lemma EvictOk(records: Records, holders: map<nat, string>, m: nat, clock: int, now: int)
    requires SideOk(records, holders, m, clock) && clock <= now
    ensures SideOk(Evicted(records, now), holders, m, now)
  {
    forall k | k in Evicted(records, now)
      ensures k != "" && RecordOk(records[k], |Under(holders, k)|, m, now)
    {
      RecordLater(records[k], |Under(holders, k)|, |Under(holders, k)|, m, clock, now);
    }
  }

  /** A login enters behind an unlocked check. */
  lemma EnterOk(records: Records, holders: map<nat, string>, m: nat, now: int, q: nat, key: string)
    requires SideOk(records, holders, m, now) && q !in holders && WaitFor(records, key, now) == 0
    ensures SideOk(records, holders[q := key], m, now)
  {
    forall k | k in records
      ensures RecordOk(records[k], |Under(holders[q := key], k)|, m, now)
    {
      UnderPut(holders, q, key, k);
      if k == key && Fresh(records[k], now) >= 9 {
        NineLock(records[k], |Under(holders, k)|, m, now);
      }
    }
  }

  /** A login leaves without a failure. */
  lemma LeaveOk(records: Records, holders: map<nat, string>, m: nat, now: int, q: nat)
    requires SideOk(records, holders, m, now) && q in holders
    ensures SideOk(records, holders - {q}, m, now)
  {
    forall k | k in records
      ensures RecordOk(records[k], |Under(holders - {q}, k)|, m, now)
    {
      UnderDrop(holders, q, k);
    }
  }

  lemma KeyFailOk(records: Records, holders: map<nat, string>, m: nat, now: int, q: nat, overflow: int)
    requires SideOk(records, holders, m, now) && q in holders && Capped(m, overflow)
             && |Under(holders, holders[q])| <= m
    ensures RecordOk(AfterFailure(RecordOf(records, holders[q]), now, overflow), |Under(holders - {q}, holders[q])|,
            m, now)
  {
    var key := holders[q];
    UnderDrop(holders, q, key);
    assert q in Under(holders, key);
    FailureOk(RecordOf(records, key), |Under(holders, key)|, m, now, overflow);
  }

  /** A login reports a failure. */
  lemma FailOk(records: Records, holders: map<nat, string>, m: nat, now: int, q: nat, overflow: int)
    requires SideOk(records, holders, m, now) && q in holders && Capped(m, overflow)
    requires holders[q] != "" ==> |Under(holders, holders[q])| <= m
    ensures SideOk(Failed(records, holders[q], now, overflow), holders - {q}, m, now)
  {
    LeaveOk(records, holders, m, now, q);
    if holders[q] != "" {
      KeyFailOk(records, holders, m, now, q, overflow);
    }
  }

  // ----- both maps, over every run -----

  ghost predicate RaceOk(s: Race, m: nat) {
    SideOk(s.limiter.users, s.users, m, s.clock) && SideOk(s.limiter.ips, s.ips, m, s.clock)
  }

  lemma StepOk(s: Race, step: Step, m: nat, overflow: int)
    requires RaceOk(s, m) && Within(s, m) && Enabled(s, step) && Capped(m, overflow)
    ensures RaceOk(Apply(s, step, overflow), m)
  {
    if step.Enter? || step.Fail? {
      EvictOk(s.limiter.users, s.users, m, s.clock, step.now);
      EvictOk(s.limiter.ips, s.ips, m, s.clock, step.now);
    }
    match step
    case Enter(q, user, ip, now) =>
      if Answer(s.limiter, Op.Check(user, ip, now), overflow) <= 0 {
        EnterOk(Evicted(s.limiter.users, now), s.users, m, now, q, user);
        EnterOk(Evicted(s.limiter.ips, now), s.ips, m, now, q, ip);
      }
    case Fail(q, now) =>
      FailOk(Evicted(s.limiter.users, now), s.users, m, now, q, overflow);
      FailOk(Evicted(s.limiter.ips, now), s.ips, m, now, q, overflow);
    case Succeed(q) =>
      LeaveOk(s.limiter.users, s.users, m, s.clock, q);
      LeaveOk(s.limiter.ips, s.ips, m, s.clock, q);
    case Abort(q) =>
      LeaveOk(s.limiter.users, s.users, m, s.clock, q);
      LeaveOk(s.limiter.ips, s.ips, m, s.clock, q);
  }

  lemma {:induction false} RunOk(s: Race, steps: seq<Step>, m: nat, overflow: int)
    requires RaceOk(s, m) && Runs(s, steps, m, overflow) && Capped(m, overflow)
    ensures RaceOk(RunAll(s, steps, m, overflow), m)
    decreases |steps|
  {
    if steps != [] {
      StepOk(s, steps[0], m, overflow);
      RunOk(Apply(s, steps[0], overflow), steps[1..], m, overflow);
    }
  }

  /** No key has more than `bound` failures on record. */
  ghost predicate AtMost(l: Limiter, bound: nat) {
    && (forall k :: k in l.users ==> |l.users[k].failures| <= bound)
    && (forall k :: k in l.ips ==> |l.ips[k].failures| <= bound)
  }

  /**
   Over every interleaving in which at most `m` logins of a key are under way, no record ever
   holds more than `8 + m` failures.
   */
  lemma OverlapBound(steps: seq<Step>, m: nat, overflow: int)
    requires Runs(NOBODY, steps, m, overflow) && Capped(m, overflow)
    ensures AtMost(RunAll(NOBODY, steps, m, overflow).limiter, 8 + m)
  {
    var s := RunAll(NOBODY, steps, m, overflow);
    RunOk(NOBODY, steps, m, overflow);
    forall k | k in s.limiter.users
      ensures |s.limiter.users[k].failures| <= 8 + m
    {
      assert RecordOk(s.limiter.users[k], |Under(s.users, k)|, m, s.clock);
    }
    forall k | k in s.limiter.ips
      ensures |s.limiter.ips[k].failures| <= 8 + m
    {
      assert RecordOk(s.limiter.ips[k], |Under(s.ips, k)|, m, s.clock);
    }
  }

  // ----- runs that reach the bound -----

  lemma {:induction false} RunSnoc(s: Race, steps: seq<Step>, step: Step, m: nat, overflow: int)
    requires Runs(s, steps, m, overflow) && Enabled(RunAll(s, steps, m, overflow), step)
    requires Within(Apply(RunAll(s, steps, m, overflow), step, overflow), m)
    ensures Runs(s, steps + [step], m, overflow)
    ensures RunAll(s, steps + [step], m, overflow) == Apply(RunAll(s, steps, m, overflow), step, overflow)
    decreases |steps|
  {
    var all := steps + [step];
    if steps == [] {
      assert all == [step] && all[1..] == [];
    } else {
      RunSnoc(Apply(s, steps[0], overflow), steps[1..], step, m, overflow);
      assert all[0] == steps[0] && all[1..] == steps[1..] + [step];
    }
  }

  /** The first `k` logins are under way on one key. */
  function Held(key: string, k: nat): (r: map<nat, string>)
    ensures forall q :: q in r ==> q < k
  {
    if k == 0 then map[] else Held(key, k - 1)[k - 1 := key]
  }

  lemma HeldMore(key: string, k: nat)
    ensures k !in Held(key, k) && Held(key, k)[k := key] == Held(key, k + 1) && Held(key, k + 1) - {k} == Held(key, k)
  {
  }

  lemma {:induction false} HeldUnder(key: string, k: nat, other: string)
    ensures |Under(Held(key, k), other)| <= k
  {
    if k == 0 {
      assert Under(Held(key, 0), other) == {};
    } else {
      HeldUnder(key, k - 1, other);
      HeldMore(key, k - 1);
      UnderPut(Held(key, k - 1), k - 1, key, other);
    }
  }

  const NO_RECORD := AttemptRecord([], 0)

  /** One user with its record, `k` logins under way, and no addresses. */
  function Solo(user: string, rec: AttemptRecord, k: nat, clock: int): Race {
    Race(Alone(user, rec), Held(user, k), Held("", k), clock)
  }

  function Alone(user: string, rec: AttemptRecord): Limiter {
    Limiter(if rec == NO_RECORD then map[] else map[user := rec], map[])
  }

  lemma SoloWithin(user: string, rec: AttemptRecord, k: nat, clock: int, m: nat)
    requires k <= m
    ensures Within(Solo(user, rec, k, clock), m)
  {
    forall key
      ensures |Under(Held(user, k), key)| <= m && |Under(Held("", k), key)| <= m
    {
      HeldUnder(user, k, key);
      HeldUnder("", k, key);
    }
  }

  /** The record is not about to be evicted. */
  predicate Alive(rec: AttemptRecord, now: int) {
    rec == NO_RECORD || Fresh(rec, now) > 0
  }

  lemma AloneStays(user: string, rec: AttemptRecord, now: int)
    requires Alive(rec, now)
    ensures Evicted(Alone(user, rec).users, now) == Alone(user, rec).users && Evicted(map[], now) == map[]
  {
  }

  lemma AloneFails(user: string, rec: AttemptRecord, now: int, overflow: int)
    requires user != "" && Alive(rec, now)
    ensures Do(Alone(user, rec), Op.Failure(user, "", now), overflow) == Alone(user, AfterFailure(rec, now, overflow))
    ensures Alive(AfterFailure(rec, now, overflow), now)
  {
    AloneStays(user, rec, now);
    RecentAppend(Recent(rec.failures, now - WINDOW), now, now - WINDOW);
  }

  lemma SoloEnter(user: string, rec: AttemptRecord, k: nat, clock: int, now: int, overflow: int)
    requires clock <= now && Alive(rec, now) && rec.lockedUntil <= now
    ensures Enabled(Solo(user, rec, k, clock), Enter(k, user, "", now))
    ensures Apply(Solo(user, rec, k, clock), Enter(k, user, "", now), overflow) == Solo(user, rec, k + 1, now)
  {
    HeldMore(user, k);
    HeldMore("", k);
    AloneStays(user, rec, now);
  }

  lemma SoloFail(user: string, rec: AttemptRecord, k: nat, clock: int, now: int, overflow: int)
    requires user != "" && clock <= now && Alive(rec, now)
    ensures Enabled(Solo(user, rec, k + 1, clock), Fail(k, now))
    ensures Apply(Solo(user, rec, k + 1, clock), Fail(k, now), overflow) ==
            Solo(user, AfterFailure(rec, now, overflow), k, now)
  {
    HeldMore(user, k);
    HeldMore("", k);
    AloneFails(user, rec, now, overflow);
  }

  /** A run that leads to one user with this record and `k` logins under way. */
  ghost predicate Leads(steps: seq<Step>, user: string, rec: AttemptRecord, k: nat, clock: int, m: nat, overflow: int) {
    Runs(NOBODY, steps, m, overflow) && RunAll(NOBODY, steps, m, overflow) == Solo(user, rec, k, clock)
  }

  lemma {:induction false} EnterMany(steps: seq<Step>, user: string, rec: AttemptRecord, k: nat, clock: int, now: int,
                                     m: nat, overflow: int)
    returns (steps': seq<Step>)
    requires Leads(steps, user, rec, 0, clock, m, overflow)
    requires clock <= now && Alive(rec, now) && rec.lockedUntil <= now && 1 <= k <= m
    ensures Leads(steps', user, rec, k, now, m, overflow)
  {
    var before, j, last := steps, k - 1, clock;
    if k > 1 {
      before := EnterMany(steps, user, rec, k - 1, clock, now, m, overflow);
      last := now;
    }
    SoloEnter(user, rec, j, last, now, overflow);
    SoloWithin(user, rec, k, now, m);
    RunSnoc(NOBODY, before, Enter(j, user, "", now), m, overflow);
    steps' := before + [Enter(j, user, "", now)];
  }

  lemma FailOne(steps: seq<Step>, user: string, rec: AttemptRecord, k: nat, now: int, m: nat, overflow: int)
    requires user != "" && Leads(steps, user, rec, k + 1, now, m, overflow) && Alive(rec, now) && k <= m
    ensures Leads(steps + [Fail(k, now)], user, AfterFailure(rec, now, overflow), k, now, m, overflow)
    ensures Alive(AfterFailure(rec, now, overflow), now)
  {
    SoloFail(user, rec, k, now, now, overflow);
    AloneFails(user, rec, now, overflow);
    SoloWithin(user, AfterFailure(rec, now, overflow), k, now, m);
    RunSnoc(NOBODY, steps, Fail(k, now), m, overflow);
  }

  /** All the failures lie between the two times. */
  ghost predicate Between(failures: seq<int>, lo: int, hi: int) {
    forall i :: 0 <= i < |failures| ==> lo <= failures[i] <= hi
  }

  lemma {:induction false} AllRecent(failures: seq<int>, start: int)
    requires forall i :: 0 <= i < |failures| ==> failures[i] > start
    ensures Recent(failures, start) == failures
    decreases |failures|
  {
    if failures != [] {
      AllRecent(failures[..|failures| - 1], start);
    }
  }

  function Repeat(t: int, k: nat): (r: seq<int>)
    ensures |r| == k && forall i :: 0 <= i < k ==> r[i] == t
  {
    if k == 0 then [] else [t] + Repeat(t, k - 1)
  }

  lemma RepeatFirst(failures: seq<int>, t: int, k: nat)
    requires k > 0
    ensures failures + [t] + Repeat(t, k - 1) == failures + Repeat(t, k)
  {
  }

  /** What `k` failures at one time make of a record. */
  ghost predicate FailedTimes(rec: AttemptRecord, rec': AttemptRecord, now: int, k: nat, overflow: int) {
    && rec'.failures == Recent(rec.failures, now - WINDOW) + Repeat(now, k)
    && rec'.lockedUntil ==
       if |rec'.failures| >= THRESHOLD then now + Backoff(|rec'.failures|, overflow) else rec.lockedUntil
  }

  lemma FailedOnce(rec: AttemptRecord, now: int, overflow: int)
    ensures FailedTimes(rec, AfterFailure(rec, now, overflow), now, 1, overflow)
  {
    assert Repeat(now, 1) == [now];
  }

  lemma FailedMore(rec: AttemptRecord, next: AttemptRecord, rec': AttemptRecord, now: int, k: nat, overflow: int)
    requires FailedTimes(rec, next, now, 1, overflow) && FailedTimes(next, rec', now, k, overflow)
    ensures FailedTimes(rec, rec', now, k + 1, overflow)
  {
    var kept := Recent(rec.failures, now - WINDOW);
    RecentRecent(rec.failures, now - WINDOW, now - WINDOW);
    RecentAppend(kept, now, now - WINDOW);
    assert Repeat(now, 1) == [now];
    RepeatFirst(kept, now, k + 1);
  }

  lemma {:induction false} FailMany(steps: seq<Step>, user: string, rec: AttemptRecord, k: nat, now: int, m: nat,
                                    overflow: int)
    returns (steps': seq<Step>, rec': AttemptRecord)
    requires user != "" && Leads(steps, user, rec, k, now, m, overflow) && Alive(rec, now) && 1 <= k <= m
    ensures Leads(steps', user, rec', 0, now, m, overflow) && FailedTimes(rec, rec', now, k, overflow)
    decreases k
  {
    FailOne(steps, user, rec, k - 1, now, m, overflow);
    FailedOnce(rec, now, overflow);
    var next := AfterFailure(rec, now, overflow);
    steps', rec' := steps + [Fail(k - 1, now)], next;
    if k > 1 {
      steps', rec' := FailMany(steps', user, next, k - 1, now, m, overflow);
      FailedMore(rec, next, rec', now, k - 1, overflow);
    }
  }

  lemma FreshSome(rec: AttemptRecord, now: int)
    requires rec.failures != [] && rec.failures[|rec.failures| - 1] > now - WINDOW
    ensures Fresh(rec, now) > 0
  {
  }

  /** What a burst leaves when everything recorded before it is in the window. */
  lemma FailedTimesInWindow(rec: AttemptRecord, rec': AttemptRecord, now: int, k: nat, overflow: int)
    requires FailedTimes(rec, rec', now, k, overflow) && 0 <= now < WINDOW && Between(rec.failures, 0, now)
    ensures rec'.failures == rec.failures + Repeat(now, k) && Between(rec'.failures, 0, now)
  {
    AllRecent(rec.failures, now - WINDOW);
  }

  /** `k` logins enter together and then all fail; everything recorded before is in the window. */
  lemma Burst(steps: seq<Step>, user: string, rec: AttemptRecord, k: nat, clock: int, now: int, m: nat, overflow: int)
    returns (steps': seq<Step>, rec': AttemptRecord)
    requires user != "" && Leads(steps, user, rec, 0, clock, m, overflow) && (rec.failures == [] ==> rec == NO_RECORD)
    requires 0 <= clock <= now < WINDOW && rec.lockedUntil <= now && 1 <= k <= m && Between(rec.failures, 0, now)
    ensures Leads(steps', user, rec', 0, now, m, overflow) && Between(rec'.failures, 0, now)
    ensures |rec'.failures| == |rec.failures| + k
    ensures forall i :: |rec.failures| <= i < |rec'.failures| ==> rec'.failures[i] == now
    ensures rec'.lockedUntil == if |rec'.failures| >= THRESHOLD
            then now + Backoff(|rec'.failures|, overflow) else rec.lockedUntil
  {
    if rec.failures != [] {
      FreshSome(rec, now);
    }
    var entered := EnterMany(steps, user, rec, k, clock, now, m, overflow);
    steps', rec' := FailMany(entered, user, rec, k, now, m, overflow);
    FailedTimesInWindow(rec, rec', now, k, overflow);
  }

  lemma BackoffValues(overflow: int)
    ensures Backoff(6, overflow) == 2 * MINUTE && Backoff(7, overflow) == 4 * MINUTE
            && Backoff(8, overflow) == 8 * MINUTE
  {
    Pow2Values();
  }

  /** Six failures at once. */
  lemma SixFirst(user: string, m: nat, overflow: int) returns (steps: seq<Step>, rec: AttemptRecord)
    requires user != "" && m >= 2
    ensures Leads(steps, user, rec, 0, 0, m, overflow)
    ensures |rec.failures| == 6 && Between(rec.failures, 0, 0) && rec.lockedUntil == 2 * MINUTE
  {
    steps, rec := [], NO_RECORD;
    SoloWithin(user, rec, 0, 0, m);
    assert Solo(user, rec, 0, 0) == NOBODY;
    BackoffValues(overflow);
    steps, rec := Burst(steps, user, rec, 2, 0, 0, m, overflow);
    steps, rec := Burst(steps, user, rec, 2, 0, 0, m, overflow);
    steps, rec := Burst(steps, user, rec, 2, 0, 0, m, overflow);
  }

  /** Two more, each as soon as the lock allows; the key is unlocked again before the first leave the window. */
  lemma EightFirst(user: string, m: nat, overflow: int) returns (steps: seq<Step>, rec: AttemptRecord)
    requires user != "" && m >= 2
    ensures Leads(steps, user, rec, 0, 6 * MINUTE, m, overflow)
    ensures |rec.failures| == 8 && Between(rec.failures, 0, 6 * MINUTE) && rec.lockedUntil == 14 * MINUTE
  {
    BackoffValues(overflow);
    steps, rec := SixFirst(user, m, overflow);
    steps, rec := Burst(steps, user, rec, 1, 0, 2 * MINUTE, m, overflow);
    steps, rec := Burst(steps, user, rec, 1, 2 * MINUTE, 6 * MINUTE, m, overflow);
  }

  /** With two or more logins under way the bound is reached, whatever the conversion yields. */
  lemma BoundIsReached(user: string, m: nat, overflow: int) returns (steps: seq<Step>, rec: AttemptRecord)
    requires user != "" && m >= 2
    ensures Leads(steps, user, rec, 0, 14 * MINUTE, m, overflow) && |rec.failures| == 8 + m
    ensures rec.lockedUntil == 14 * MINUTE + Backoff(8 + m, overflow)
    ensures forall i :: 8 <= i < 8 + m ==> rec.failures[i] == 14 * MINUTE
  {
    var eight, rec8 := EightFirst(user, m, overflow);
    steps, rec := Burst(eight, user, rec8, m, 6 * MINUTE, 14 * MINUTE, m, overflow);
  }

  // ----- and that exceed it -----

  lemma {:induction false} TailCounts(failures: seq<int>, k: nat, t: int, start: int)
    requires k <= |failures| && t > start && forall i :: k <= i < |failures| ==> failures[i] == t
    ensures |Recent(failures, start)| >= |failures| - k
    decreases |failures|
  {
    if k < |failures| {
      TailCounts(failures[..|failures| - 1], k, t, start);
    }
  }

  /**
   With 25 or more logins under way the 33rd failure computes a lockout out of range; unless the
   conversion saturates, the lock ends before the failures leave the window, and as many
   logins again get through.
   */
  lemma BoundIsExceeded(user: string, m: nat, overflow: int) returns (steps: seq<Step>)
    requires user != "" && !Capped(m, overflow)
    ensures Runs(NOBODY, steps, m, overflow) && !AtMost(RunAll(NOBODY, steps, m, overflow).limiter, 8 + m)
  {
    var first, rec := BoundIsReached(user, m, overflow);
    BackoffExact(8 + m, overflow);
    var now := 14 * MINUTE + Max(overflow, 0);
    TailCounts(rec.failures, 8, 14 * MINUTE, now - WINDOW);
    var entered := EnterMany(first, user, rec, m, 14 * MINUTE, now, m, overflow);
    var rec';
    steps, rec' := FailMany(entered, user, rec, m, now, m, overflow);
    var l := RunAll(NOBODY, steps, m, overflow).limiter;
    assert user in l.users && |l.users[user].failures| > 8 + m;
  }

  /**
   So with `m` of a key under way, two or more, `8 + m` is the bound exactly when no lockout
   computed within it goes out of range unnoticed.
   */
  lemma OverlapBoundIff(user: string, m: nat, overflow: int)
    requires user != "" && m >= 2
    ensures (forall steps :: Runs(NOBODY, steps, m, overflow) ==>
            AtMost(RunAll(NOBODY, steps, m, overflow).limiter, 8 + m))
            <==> Capped(m, overflow)
  {
    if Capped(m, overflow) {
      forall steps | Runs(NOBODY, steps, m, overflow)
        ensures AtMost(RunAll(NOBODY, steps, m, overflow).limiter, 8 + m)
      {
        OverlapBound(steps, m, overflow);
      }
    } else {
      var steps := BoundIsExceeded(user, m, overflow);
    }
  }
}
