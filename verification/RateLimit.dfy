/**
 The login rate limiter: a sliding window of failures per user name and per client
 address, exponential lockouts, in-place pruning and opportunistic eviction.

 Times are nanoseconds since Go's zero time, so a record that was never locked has
 `lockedUntil == 0`.
 */
module RateLimit {
  import opened Wrappers

  // In nanoseconds.
  const MINUTE := 60_000_000_000
  const WINDOW := 900_000_000_000
  const THRESHOLD := 5
  const MAX_LOCKOUT := 900_000_000_000
  const BASE_LOCKOUT := 60_000_000_000
  const INT64_LIMIT := 0x8000_0000_0000_0000

  // ----- backoff arithmetic -----

  function Pow2(n: nat): (r: nat)
    ensures r >= 1
  {
    if n == 0 then 1 else 2 * Pow2(n - 1)
  }

  /**
   The lockout after `count` failures. The product is exact in float64, a power of two
   times a small integer; converting one that does not fit int64 yields whatever the
   platform yields, `overflow`.
   */
  function Backoff(count: nat, overflow: int): int
    requires count >= THRESHOLD
  {
    var product := BASE_LOCKOUT * Pow2(count - THRESHOLD);
    var duration := if product < INT64_LIMIT then product else overflow;
    if duration > MAX_LOCKOUT then MAX_LOCKOUT else duration
  }

  lemma {:induction false} Pow2Monotone(m: nat, n: nat)
    requires m <= n
    ensures Pow2(m) <= Pow2(n)
    decreases n
  {
    if m < n {
      Pow2Monotone(m, n - 1);
    }
  }

  lemma Pow2Values()
    ensures Pow2(0) == 1 && Pow2(1) == 2 && Pow2(2) == 4 && Pow2(3) == 8 && Pow2(4) == 16
    ensures Pow2(27) == 0x800_0000 && Pow2(28) == 0x1000_0000
  {
    assert Pow2(8) == 256;
    assert Pow2(14) == 0x4000;
    assert Pow2(21) == 0x20_0000;
  }

  /** The product fits int64 exactly up to count 32, where the result is min(base * 2^(count-5), max). */
  lemma BackoffExact(count: nat, overflow: int)
    requires count >= THRESHOLD
    ensures BASE_LOCKOUT * Pow2(count - THRESHOLD) < INT64_LIMIT <==> count <= 32
    ensures count <= 32 ==>
      && BASE_LOCKOUT <= Backoff(count, overflow) <= MAX_LOCKOUT
      && Backoff(count, overflow) ==
         (if BASE_LOCKOUT * Pow2(count - THRESHOLD) <= MAX_LOCKOUT then BASE_LOCKOUT * Pow2(count - THRESHOLD)
             else MAX_LOCKOUT)
    ensures 9 <= count <= 32 ==> Backoff(count, overflow) == MAX_LOCKOUT
  {
    Pow2Values();
    if count <= 32 {
      Pow2Monotone(count - THRESHOLD, 27);
    } else {
      Pow2Monotone(28, count - THRESHOLD);
    }
    if count >= 9 {
      Pow2Monotone(4, count - THRESHOLD);
    }
  }

  lemma BackoffMonotone(a: nat, b: nat, overflow: int)
    requires THRESHOLD <= a <= b <= 32
    ensures Backoff(a, overflow) <= Backoff(b, overflow)
  {
    BackoffExact(a, overflow);
    BackoffExact(b, overflow);
    Pow2Monotone(a - THRESHOLD, b - THRESHOLD);
  }

  // ----- the limiter as the code keeps it -----

  datatype AttemptRecord = AttemptRecord(failures: seq<int>, lockedUntil: int)

  type Records = map<string, AttemptRecord>

  datatype Limiter = Limiter(users: Records, ips: Records)

  /** The failures after `start`. */
  function Recent(failures: seq<int>, start: int): seq<int>
    decreases |failures|
  {
    if failures == [] then []
    else
      var n := |failures| - 1;
      Recent(failures[..n], start) + (if failures[n] > start then [failures[n]] else [])
  }

  predicate Stale(rec: AttemptRecord, now: int) {
    now > rec.lockedUntil && Recent(rec.failures, now - WINDOW) == []
  }

  function Evicted(records: Records, now: int): Records {
    map k | k in records && !Stale(records[k], now) :: records[k]
  }

  function WaitFor(records: Records, key: string, now: int): int {
    if key == "" || key !in records then 0
    else if now < records[key].lockedUntil then records[key].lockedUntil - now else 0
  }

  function Max(a: int, b: int): int {
    if b > a then b else a
  }

  function RecordOf(records: Records, key: string): AttemptRecord {
    if key in records then records[key] else AttemptRecord([], 0)
  }

  function AfterFailure(rec: AttemptRecord, now: int, overflow: int): AttemptRecord {
    var failures := Recent(rec.failures, now - WINDOW) + [now];
    AttemptRecord(failures, if |failures| >= THRESHOLD then now + Backoff(|failures|, overflow) else rec.lockedUntil)
  }

  function LockoutOf(rec: AttemptRecord, overflow: int): int {
    if |rec.failures| >= THRESHOLD then Backoff(|rec.failures|, overflow) else 0
  }

  function Failed(records: Records, key: string, now: int, overflow: int): Records {
    if key == "" then records else records[key := AfterFailure(RecordOf(records, key), now, overflow)]
  }

  function FailedWait(records: Records, key: string, now: int, overflow: int): int {
    if key == "" then 0 else LockoutOf(AfterFailure(RecordOf(records, key), now, overflow), overflow)
  }

  datatype Op =
    | Check(user: string, ip: string, now: int)
    | Failure(user: string, ip: string, now: int)
    | Success(user: string)

  function Do(l: Limiter, op: Op, overflow: int): Limiter {
    match op
    case Check(_, _, now) => Limiter(Evicted(l.users, now), Evicted(l.ips, now))
    case Failure(user, ip, now) =>
      Limiter(Failed(Evicted(l.users, now), user, now, overflow), Failed(Evicted(l.ips, now), ip, now, overflow))
    case Success(user) => l.(users := l.users - {user})
  }

  /** The duration the call returns; a check reports "locked" exactly when it is positive. */
  function Answer(l: Limiter, op: Op, overflow: int): int {
    match op
    case Check(user, ip, now) => Max(WaitFor(Evicted(l.users, now), user, now), WaitFor(Evicted(l.ips, now), ip, now))
    case Failure(user, ip, now) =>
      Max(FailedWait(Evicted(l.users, now), user, now, overflow), FailedWait(Evicted(l.ips, now), ip, now, overflow))
    case Success(_) => 0
  }

  function Answers(l: Limiter, ops: seq<Op>, overflow: int): (r: seq<int>)
    ensures |r| == |ops|
    decreases |ops|
  {
    if ops == [] then [] else [Answer(l, ops[0], overflow)] + Answers(Do(l, ops[0], overflow), ops[1..], overflow)
  }

  function DoAll(l: Limiter, ops: seq<Op>, overflow: int): Limiter
    decreases |ops|
  {
    if ops == [] then l else DoAll(Do(l, ops[0], overflow), ops[1..], overflow)
  }

  // ----- the specification: nothing is ever forgotten except by a success -----

  type Histories = map<string, seq<int>>

  datatype Ledger = Ledger(users: Histories, ips: Histories)

  function HistoryOf(h: Histories, key: string): seq<int> {
    if key in h then h[key] else []
  }

  /** How many failures lie in the window that ends with the last one. */
  function Count(h: seq<int>): nat
    requires h != []
  {
    |Recent(h, h[|h| - 1] - WINDOW)|
  }

  /** The end of the lockout set by the latest failure that reached the threshold. */
  function LockedUntil(h: seq<int>, overflow: int): int
    decreases |h|
  {
    if h == [] then 0
    else if Count(h) >= THRESHOLD then h[|h| - 1] + Backoff(Count(h), overflow)
    else LockedUntil(h[..|h| - 1], overflow)
  }

  function SpecWait(h: Histories, key: string, now: int, overflow: int): int {
    if key == "" then 0 else Max(LockedUntil(HistoryOf(h, key), overflow) - now, 0)
  }

  function SpecFailed(h: Histories, key: string, now: int): Histories {
    if key == "" then h else h[key := HistoryOf(h, key) + [now]]
  }

  function SpecFailedWait(h: Histories, key: string, now: int, overflow: int): int {
    if key == "" then 0
    else
      var count := Count(HistoryOf(h, key) + [now]);
      if count >= THRESHOLD then Backoff(count, overflow) else 0
  }

  function SpecDo(g: Ledger, op: Op): Ledger {
    match op
    case Check(_, _, _) => g
    case Failure(user, ip, now) => Ledger(SpecFailed(g.users, user, now), SpecFailed(g.ips, ip, now))
    case Success(user) => g.(users := g.users - {user})
  }

  function SpecAnswer(g: Ledger, op: Op, overflow: int): int {
    match op
    case Check(user, ip, now) => Max(SpecWait(g.users, user, now, overflow), SpecWait(g.ips, ip, now, overflow))
    case Failure(user, ip, now) =>
      Max(SpecFailedWait(g.users, user, now, overflow), SpecFailedWait(g.ips, ip, now, overflow))
    case Success(_) => 0
  }

  function SpecAnswers(g: Ledger, ops: seq<Op>, overflow: int): seq<int>
    decreases |ops|
  {
    if ops == [] then [] else [SpecAnswer(g, ops[0], overflow)] + SpecAnswers(SpecDo(g, ops[0]), ops[1..], overflow)
  }

  function TimeAfter(last: int, op: Op): int {
    if op.Success? then last else op.now
  }

  /** The clock never runs backwards. */
  predicate Clocked(last: int, ops: seq<Op>)
    decreases |ops|
  {
    ops != [] ==> TimeAfter(last, ops[0]) >= last && Clocked(TimeAfter(last, ops[0]), ops[1..])
  }

  // ----- pruning and eviction are never observable -----

  lemma {:induction false} RecentRecent(failures: seq<int>, a: int, b: int)
    requires a <= b
    ensures Recent(Recent(failures, a), b) == Recent(failures, b)
    decreases |failures|
  {
    if failures != [] {
      var n := |failures| - 1;
      RecentRecent(failures[..n], a, b);
      var kept := Recent(failures[..n], a);
      if failures[n] > a {
        assert (kept + [failures[n]])[..|kept|] == kept;
      } else {
        assert kept + [] == kept;
      }
    }
  }

  lemma {:induction false} RecentAppend(failures: seq<int>, t: int, start: int)
    ensures Recent(failures + [t], start) == Recent(failures, start) + (if t > start then [t] else [])
  {
    assert (failures + [t])[..|failures|] == failures;
  }

  /** From `now` on the record and the history cannot be told apart. */
  ghost predicate Tracks(rec: AttemptRecord, h: seq<int>, now: int, overflow: int) {
    && Recent(rec.failures, now - WINDOW) == Recent(h, now - WINDOW)
    && (rec.lockedUntil == LockedUntil(h, overflow) || (rec.lockedUntil <= now && LockedUntil(h, overflow) <= now))
  }

  /** The record holds exactly the failures that counted when it was last written. */
  ghost predicate Exact(rec: AttemptRecord, h: seq<int>) {
    h != [] && rec.failures == Recent(h, h[|h| - 1] - WINDOW)
  }

  ghost predicate TableOk(records: Records, h: Histories, now: int, overflow: int) {
    && (forall k :: k != "" ==> Tracks(RecordOf(records, k), HistoryOf(h, k), now, overflow))
    && (forall k :: k in records ==> Exact(records[k], HistoryOf(h, k)))
    && "" !in records
  }

  ghost predicate Related(l: Limiter, g: Ledger, now: int, overflow: int) {
    && now >= 0
    && TableOk(l.users, g.users, now, overflow)
    && TableOk(l.ips, g.ips, now, overflow)
  }

  lemma {:induction false} TracksLater(rec: AttemptRecord, h: seq<int>, now: int, later: int, overflow: int)
    requires Tracks(rec, h, now, overflow) && now <= later
    ensures Tracks(rec, h, later, overflow)
  {
    RecentRecent(rec.failures, now - WINDOW, later - WINDOW);
    RecentRecent(h, now - WINDOW, later - WINDOW);
  }

  lemma {:induction false} EvictionHidden(records: Records, h: Histories, now: int, later: int, overflow: int)
    requires TableOk(records, h, now, overflow) && 0 <= now <= later
    ensures TableOk(Evicted(records, later), h, later, overflow)
  {
    var kept := Evicted(records, later);
    forall k | k != ""
      ensures Tracks(RecordOf(kept, k), HistoryOf(h, k), later, overflow)
    {
      TracksLater(RecordOf(records, k), HistoryOf(h, k), now, later, overflow);
      assert k in records && k !in kept ==> Stale(records[k], later);
    }
  }

  /** Pruning then appending gives the failures of the history's window. */
  lemma {:induction false} PrunedFailures(failures: seq<int>, h: seq<int>, now: int)
    requires Recent(failures, now - WINDOW) == Recent(h, now - WINDOW)
    ensures Recent(failures, now - WINDOW) + [now] == Recent(h + [now], now - WINDOW)
    ensures Recent(Recent(failures, now - WINDOW) + [now], now - WINDOW) == Recent(h + [now], now - WINDOW)
  {
    var start := now - WINDOW;
    RecentAppend(h, now, start);
    RecentAppend(Recent(failures, start), now, start);
    RecentRecent(failures, start, start);
  }

  lemma {:induction false} LockedUntilAppend(h: seq<int>, now: int, overflow: int)
    ensures LockedUntil(h + [now], overflow) ==
            if Count(h + [now]) >= THRESHOLD
              then now + Backoff(Count(h + [now]), overflow) else LockedUntil(h, overflow)
  {
    assert (h + [now])[..|h|] == h;
  }

  /** The lockout a failure sets, or leaves, is the history's. */
  lemma {:induction false} LockoutFollows(rec: AttemptRecord, h: seq<int>, now: int, count: nat, until: int,
                                          overflow: int)
    requires Tracks(rec, h, now, overflow) && count == Count(h + [now])
    requires until == if count >= THRESHOLD then now + Backoff(count, overflow) else rec.lockedUntil
    ensures var end := LockedUntil(h + [now], overflow); until == end || (until <= now && end <= now)
  {
    LockedUntilAppend(h, now, overflow);
  }

  lemma {:induction false} FailureTracks(rec: AttemptRecord, h: seq<int>, now: int, r: AttemptRecord, overflow: int)
    requires Tracks(rec, h, now, overflow) && r == AfterFailure(rec, now, overflow)
    ensures Tracks(r, h + [now], now, overflow) && Exact(r, h + [now])
    ensures |r.failures| == Count(h + [now])
  {
    PrunedFailures(rec.failures, h, now);
    LockoutFollows(rec, h, now, |r.failures|, r.lockedUntil, overflow);
  }

  lemma {:induction false} EntryReplaced(records: Records, h: Histories, key: string, rec: AttemptRecord,
                                         times: seq<int>,
                                         now: int, overflow: int)
    requires TableOk(records, h, now, overflow) && key != ""
    requires Tracks(rec, times, now, overflow) && Exact(rec, times)
    ensures TableOk(records[key := rec], h[key := times], now, overflow)
  {
    var records', h' := records[key := rec], h[key := times];
    forall k | k != ""
      ensures Tracks(RecordOf(records', k), HistoryOf(h', k), now, overflow)
    {
      assert k != key ==> RecordOf(records', k) == RecordOf(records, k) && HistoryOf(h', k) == HistoryOf(h, k);
    }
    forall k | k in records'
      ensures Exact(records'[k], HistoryOf(h', k))
    {
      assert k != key ==> HistoryOf(h', k) == HistoryOf(h, k);
    }
  }

  lemma {:induction false} FailureHidden(records: Records, h: Histories, key: string, now: int, overflow: int)
    requires TableOk(records, h, now, overflow)
    ensures TableOk(Failed(records, key, now, overflow), SpecFailed(h, key, now), now, overflow)
  {
    if key != "" {
      var rec := AfterFailure(RecordOf(records, key), now, overflow);
      FailureTracks(RecordOf(records, key), HistoryOf(h, key), now, rec, overflow);
      EntryReplaced(records, h, key, rec, HistoryOf(h, key) + [now], now, overflow);
    }
  }

  lemma {:induction false} FailedWaitHidden(records: Records, h: Histories, key: string, now: int, overflow: int)
    requires TableOk(records, h, now, overflow)
    ensures FailedWait(records, key, now, overflow) == SpecFailedWait(h, key, now, overflow)
  {
    if key != "" {
      var r := AfterFailure(RecordOf(records, key), now, overflow);
      FailureTracks(RecordOf(records, key), HistoryOf(h, key), now, r, overflow);
    }
  }

  lemma {:induction false} SuccessHidden(records: Records, h: Histories, key: string, now: int, overflow: int)
    requires TableOk(records, h, now, overflow) && now >= 0
    ensures TableOk(records - {key}, h - {key}, now, overflow)
  {
    forall k | k != ""
      ensures Tracks(RecordOf(records - {key}, k), HistoryOf(h - {key}, k), now, overflow)
    {
      if k != key {
        assert RecordOf(records - {key}, k) == RecordOf(records, k) && HistoryOf(h - {key}, k) == HistoryOf(h, k);
      }
    }
  }

  lemma {:induction false} WaitHidden(records: Records, h: Histories, key: string, now: int, overflow: int)
    requires TableOk(records, h, now, overflow) && now >= 0
    ensures WaitFor(records, key, now) == SpecWait(h, key, now, overflow)
  {
    if key != "" {
      assert Tracks(RecordOf(records, key), HistoryOf(h, key), now, overflow);
    }
  }

  lemma {:induction false} StepHidden(l: Limiter, g: Ledger, last: int, op: Op, overflow: int)
    requires Related(l, g, last, overflow) && TimeAfter(last, op) >= last
    ensures Related(Do(l, op, overflow), SpecDo(g, op), TimeAfter(last, op), overflow)
    ensures Answer(l, op, overflow) == SpecAnswer(g, op, overflow)
  {
    match op
    case Success(user) => SuccessHidden(l.users, g.users, user, last, overflow);
    case Check(user, ip, now) =>
      EvictionHidden(l.users, g.users, last, now, overflow);
      EvictionHidden(l.ips, g.ips, last, now, overflow);
      WaitHidden(Evicted(l.users, now), g.users, user, now, overflow);
      WaitHidden(Evicted(l.ips, now), g.ips, ip, now, overflow);
    case Failure(user, ip, now) =>
      EvictionHidden(l.users, g.users, last, now, overflow);
      EvictionHidden(l.ips, g.ips, last, now, overflow);
      FailureHidden(Evicted(l.users, now), g.users, user, now, overflow);
      FailureHidden(Evicted(l.ips, now), g.ips, ip, now, overflow);
      FailedWaitHidden(Evicted(l.users, now), g.users, user, now, overflow);
      FailedWaitHidden(Evicted(l.ips, now), g.ips, ip, now, overflow);
  }

  lemma {:induction false} RunHidden(l: Limiter, g: Ledger, last: int, ops: seq<Op>, overflow: int)
    requires Related(l, g, last, overflow) && Clocked(last, ops)
    ensures Answers(l, ops, overflow) == SpecAnswers(g, ops, overflow)
    decreases |ops|
  {
    if ops != [] {
      StepHidden(l, g, last, ops[0], overflow);
      RunHidden(Do(l, ops[0], overflow), SpecDo(g, ops[0]), TimeAfter(last, ops[0]), ops[1..], overflow);
    }
  }

  const NEW_LIMITER := Limiter(map[], map[])
  const NEW_LEDGER := Ledger(map[], map[])

  /**
   Under any clock that does not run backwards, every answer of the limiter is that of the
   specification that keeps each key's whole failure history since its last reset.
   */
  lemma ForgettingIsUnobservable(ops: seq<Op>, overflow: int)
    requires Clocked(0, ops)
    ensures Answers(NEW_LIMITER, ops, overflow) == SpecAnswers(NEW_LEDGER, ops, overflow)
  {
    assert Related(NEW_LIMITER, NEW_LEDGER, 0, overflow);
    RunHidden(NEW_LIMITER, NEW_LEDGER, 0, ops, overflow);
  }

  // ----- the bound on gated runs -----

  ghost predicate Sorted(h: seq<int>) {
    forall i, j :: 0 <= i < j < |h| ==> h[i] <= h[j]
  }

  /** Failure `i` came when the lockout set by the earlier ones was over. */
  ghost predicate WaitedOut(h: seq<int>, i: int, overflow: int)
    requires 0 <= i < |h|
  {
    h[i] >= LockedUntil(h[..i], overflow)
  }

  ghost predicate Respectful(h: seq<int>, overflow: int) {
    forall i :: 0 <= i < |h| ==> WaitedOut(h, i, overflow)
  }

  lemma RespectfulPrefix(h: seq<int>, n: nat, overflow: int)
    requires Respectful(h, overflow) && n <= |h|
    ensures Respectful(h[..n], overflow)
  {
    forall i | 0 <= i < n
      ensures WaitedOut(h[..n], i, overflow)
    {
      assert WaitedOut(h, i, overflow);
      assert h[..n][..i] == h[..i];
    }
  }

  /** The window holds at least `k` failures exactly when the k-th latest is in it. */
  lemma {:induction false} RecentAtLeast(h: seq<int>, start: int, k: nat)
    requires Sorted(h) && 1 <= k
    ensures |Recent(h, start)| >= k <==> k <= |h| && h[|h| - k] > start
    decreases |h|
  {
    if h != [] {
      var n := |h| - 1;
      if k > 1 {
        RecentAtLeast(h[..n], start, k - 1);
      }
      if h[n] <= start {
        RecentAtLeast(h[..n], start, 1);
      }
    }
  }

  /** After five to eight failures the next respectful one comes at least 1, 2, 4 or 8 minutes later. */
  lemma {:induction false} LockoutDelays(h: seq<int>, overflow: int)
    requires h != [] && 5 <= Count(h) <= 8
    ensures LockedUntil(h, overflow) == h[|h| - 1] + Pow2(Count(h) - 5) * MINUTE
    ensures Pow2(Count(h) - 5) <= 8
  {
    Pow2Values();
    BackoffExact(Count(h), overflow);
    Pow2Monotone(Count(h) - 5, 3);
  }

  /** One step of the argument below: at least `k` failures precede `h[i]` in the window. */
  lemma {:induction false} NextComesLater(h: seq<int>, i: nat, k: nat, overflow: int)
    requires Sorted(h) && Respectful(h, overflow) && 5 <= k <= 8 && k <= i < |h|
    requires Count(h[..i]) <= 8 && h[i - k] > h[i - 1] - WINDOW
    ensures h[i] >= h[i - 1] + Pow2(k - 5) * MINUTE
  {
    var p := h[..i];
    assert WaitedOut(h, i, overflow);
    RecentAtLeast(p, p[i - 1] - WINDOW, k);
    LockoutDelays(p, overflow);
    Pow2Monotone(k - 5, Count(p) - 5);
  }

  /** A respectful history never has nine failures in one window. */
  lemma {:induction false} AtMostEight(h: seq<int>, overflow: int)
    requires Sorted(h) && Respectful(h, overflow) && h != []
    ensures Count(h) <= 8
    decreases |h|
  {
    var n := |h|;
    var last := h[n - 1];
    RecentAtLeast(h, last - WINDOW, 9);
    if Count(h) >= 9 {
      forall i | n - 4 <= i < n
        ensures Count(h[..i]) <= 8
      {
        RespectfulPrefix(h, i, overflow);
        AtMostEight(h[..i], overflow);
      }
      Pow2Values();
      NextComesLater(h, n - 4, 5, overflow);
      NextComesLater(h, n - 3, 6, overflow);
      NextComesLater(h, n - 2, 7, overflow);
      NextComesLater(h, n - 1, 8, overflow);
      assert false;
    }
  }

  /** No lockout of a respectful history exceeds eight minutes. */
  lemma {:induction false} LockoutAtMostEightMinutes(h: seq<int>, overflow: int)
    requires Sorted(h) && Respectful(h, overflow) && h != [] && h[0] >= 0
    ensures LockedUntil(h, overflow) <= h[|h| - 1] + 8 * MINUTE
    ensures Count(h) >= THRESHOLD ==> Backoff(Count(h), overflow) <= 8 * MINUTE
    decreases |h|
  {
    AtMostEight(h, overflow);
    if Count(h) >= THRESHOLD {
      LockoutDelays(h, overflow);
    } else if |h| > 1 {
      var p := h[..|h| - 1];
      RespectfulPrefix(h, |h| - 1, overflow);
      LockoutAtMostEightMinutes(p, overflow);
    }
  }

  /** Any nine consecutive failures of a respectful history span a whole window. */
  lemma {:induction false} NineSpanAWindow(h: seq<int>, i: nat, overflow: int)
    requires Sorted(h) && Respectful(h, overflow) && i + 8 < |h|
    ensures h[i + 8] - h[i] >= WINDOW
  {
    var p := h[..i + 9];
    RespectfulPrefix(h, i + 9, overflow);
    AtMostEight(p, overflow);
    RecentAtLeast(p, p[i + 8] - WINDOW, 9);
  }

  // ----- from histories to runs -----

  /** The user and address whose failure the last operation, an unlocked check, allows. */
  function Opens(l: Limiter, op: Op, overflow: int): Option<(string, string)> {
    if op.Check? && Answer(l, op, overflow) == 0 then Some((op.user, op.ip)) else None
  }

  /** Every failure is recorded right after an unlocked check of the same user and address. */
  predicate Gated(l: Limiter, gate: Option<(string, string)>, ops: seq<Op>, overflow: int)
    decreases |ops|
  {
    ops != [] ==>
      && (ops[0].Failure? ==> gate == Some((ops[0].user, ops[0].ip)))
      && Gated(Do(l, ops[0], overflow), Opens(l, ops[0], overflow), ops[1..], overflow)
  }

  ghost predicate HistoryOk(h: seq<int>, now: int, overflow: int) {
    Sorted(h) && Respectful(h, overflow) && (h != [] ==> 0 <= h[0] && h[|h| - 1] <= now)
  }

  ghost predicate LedgerOk(h: Histories, now: int, overflow: int) {
    forall k :: k in h ==> HistoryOk(h[k], now, overflow)
  }

  ghost predicate Open(h: Histories, key: string, now: int, overflow: int) {
    key == "" || LockedUntil(HistoryOf(h, key), overflow) <= now
  }

  ghost predicate RunOk(l: Limiter, g: Ledger, gate: Option<(string, string)>, now: int, overflow: int) {
    && Related(l, g, now, overflow)
    && LedgerOk(g.users, now, overflow)
    && LedgerOk(g.ips, now, overflow)
    && (gate.Some? ==> Open(g.users, gate.value.0, now, overflow) && Open(g.ips, gate.value.1, now, overflow))
  }

  lemma {:induction false} FailureKeepsLedger(h: Histories, key: string, last: int, now: int, overflow: int)
    requires LedgerOk(h, last, overflow) && Open(h, key, last, overflow) && 0 <= last <= now
    ensures LedgerOk(SpecFailed(h, key, now), now, overflow)
    ensures SpecFailedWait(h, key, now, overflow) <= 8 * MINUTE
  {
    if key != "" {
      var before := HistoryOf(h, key);
      var after := before + [now];
      forall i | 0 <= i < |after|
        ensures WaitedOut(after, i, overflow)
      {
        if i < |before| {
          assert WaitedOut(before, i, overflow);
          assert after[..i] == before[..i];
        } else {
          assert after[..i] == before;
        }
      }
      assert HistoryOk(after, now, overflow);
      LockoutAtMostEightMinutes(after, overflow);
    }
  }

  lemma {:induction false} WaitAtMostEightMinutes(h: Histories, key: string, now: int, overflow: int)
    requires LedgerOk(h, now, overflow) && now >= 0
    ensures SpecWait(h, key, now, overflow) <= 8 * MINUTE
  {
    if key != "" && HistoryOf(h, key) != [] {
      LockoutAtMostEightMinutes(HistoryOf(h, key), overflow);
    }
  }

  lemma {:induction false} GatedCheck(l: Limiter, g: Ledger, gate: Option<(string, string)>, last: int, op: Op,
                                      overflow: int)
    requires RunOk(l, g, gate, last, overflow) && op.Check? && op.now >= last
    ensures RunOk(Do(l, op, overflow), g, Opens(l, op, overflow), op.now, overflow)
    ensures Answer(l, op, overflow) <= 8 * MINUTE
  {
    StepHidden(l, g, last, op, overflow);
    WaitAtMostEightMinutes(g.users, op.user, op.now, overflow);
    WaitAtMostEightMinutes(g.ips, op.ip, op.now, overflow);
  }

  lemma {:induction false} GatedFailure(l: Limiter, g: Ledger, last: int, op: Op, overflow: int)
    requires op.Failure? && op.now >= last && RunOk(l, g, Some((op.user, op.ip)), last, overflow)
    ensures RunOk(Do(l, op, overflow), SpecDo(g, op), None, op.now, overflow)
    ensures Answer(l, op, overflow) <= 8 * MINUTE
  {
    StepHidden(l, g, last, op, overflow);
    FailureKeepsLedger(g.users, op.user, last, op.now, overflow);
    FailureKeepsLedger(g.ips, op.ip, last, op.now, overflow);
  }

  lemma {:induction false} GatedStep(l: Limiter, g: Ledger, gate: Option<(string, string)>, last: int, op: Op,
                                     overflow: int)
    requires RunOk(l, g, gate, last, overflow) && TimeAfter(last, op) >= last
    requires op.Failure? ==> gate == Some((op.user, op.ip))
    ensures RunOk(Do(l, op, overflow), SpecDo(g, op), Opens(l, op, overflow), TimeAfter(last, op), overflow)
    ensures Answer(l, op, overflow) <= 8 * MINUTE
  {
    match op
    case Success(_) => StepHidden(l, g, last, op, overflow);
    case Check(_, _, _) => GatedCheck(l, g, gate, last, op, overflow);
    case Failure(_, _, _) => GatedFailure(l, g, last, op, overflow);
  }

  ghost predicate SmallRecords(records: Records) {
    forall k :: k in records ==> |records[k].failures| <= 8
  }

  lemma {:induction false} RecordsStaySmall(records: Records, h: Histories, now: int, overflow: int)
    requires TableOk(records, h, now, overflow) && LedgerOk(h, now, overflow)
    ensures SmallRecords(records)
  {
    forall k | k in records
      ensures |records[k].failures| <= 8
    {
      assert Exact(records[k], HistoryOf(h, k));
      AtMostEight(HistoryOf(h, k), overflow);
    }
  }

  lemma {:induction false} GatedRun(l: Limiter, g: Ledger, gate: Option<(string, string)>, last: int, ops: seq<Op>,
                                    overflow: int)
    requires RunOk(l, g, gate, last, overflow) && Clocked(last, ops) && Gated(l, gate, ops, overflow)
    ensures SmallRecords(DoAll(l, ops, overflow).users) && SmallRecords(DoAll(l, ops, overflow).ips)
    ensures forall i :: 0 <= i < |ops| ==> Answers(l, ops, overflow)[i] <= 8 * MINUTE
    decreases |ops|
  {
    if ops == [] {
      RecordsStaySmall(l.users, g.users, last, overflow);
      RecordsStaySmall(l.ips, g.ips, last, overflow);
    } else {
      var op := ops[0];
      GatedStep(l, g, gate, last, op, overflow);
      GatedRun(Do(l, op, overflow), SpecDo(g, op), Opens(l, op, overflow), TimeAfter(last, op), ops[1..], overflow);
    }
  }

  lemma FreshRunOk(overflow: int)
    ensures RunOk(NEW_LIMITER, NEW_LEDGER, None, 0, overflow)
  {
  }

  /**
   In every serialized run in which failures follow unlocked checks, no record ever holds
   more than eight failures and no answer exceeds eight minutes: the cap of fifteen
   minutes, let alone the integer range, is never reached.
   */
  lemma GatedRunsStayBelowCap(ops: seq<Op>, overflow: int)
    requires Clocked(0, ops) && Gated(NEW_LIMITER, None, ops, overflow)
    ensures SmallRecords(DoAll(NEW_LIMITER, ops, overflow).users) && SmallRecords(DoAll(NEW_LIMITER, ops, overflow).ips)
    ensures forall i :: 0 <= i < |ops| ==> Answers(NEW_LIMITER, ops, overflow)[i] <= 8 * MINUTE
  {
    FreshRunOk(overflow);
    GatedRun(NEW_LIMITER, NEW_LEDGER, None, 0, ops, overflow);
  }

  // ----- the bound is tight -----

  /** Failed logins at the times of `h` from `i` on, each checked first. */
  function Logins(user: string, h: seq<int>, i: nat): seq<Op>
    requires i <= |h|
    decreases |h| - i
  {
    if i == |h| then [] else [Check(user, "", h[i]), Failure(user, "", h[i])] + Logins(user, h, i + 1)
  }

  /** A failed login of an unlocked user gets through the check and is recorded. */
  lemma {:induction false} LoginRecorded(user: string, t: int, l: Limiter, g: Ledger, last: int, overflow: int)
    requires user != "" && RunOk(l, g, None, last, overflow) && last <= t
    requires LockedUntil(HistoryOf(g.users, user), overflow) <= t
    ensures Opens(l, Check(user, "", t), overflow) == Some((user, ""))
    ensures var l' := Do(Do(l, Check(user, "", t), overflow), Failure(user, "", t), overflow);
            var g' := SpecDo(g, Failure(user, "", t));
            && RunOk(l', g', None, t, overflow)
            && HistoryOf(g'.users, user) == HistoryOf(g.users, user) + [t]
            && user in l'.users
  {
    var check, failure := Check(user, "", t), Failure(user, "", t);
    StepHidden(l, g, last, check, overflow);
    GatedStep(l, g, None, last, check, overflow);
    GatedStep(Do(l, check, overflow), g, Some((user, "")), t, failure, overflow);
  }

  /** The user's record is what the whole history would leave. */
  ghost predicate Reflects(l: Limiter, user: string, h: seq<int>, overflow: int) {
    h != [] ==> user in l.users && Exact(l.users[user], h) && Tracks(l.users[user], h, h[|h| - 1], overflow)
  }

  lemma RecordReflects(l: Limiter, histories: Histories, user: string, h: seq<int>, last: int, overflow: int)
    requires user in l.users && HistoryOf(histories, user) == h && TableOk(l.users, histories, last, overflow)
    requires h != [] && h[|h| - 1] == last
    ensures Reflects(l, user, h, overflow)
  {
    assert Exact(l.users[user], HistoryOf(histories, user));
    assert Tracks(RecordOf(l.users, user), HistoryOf(histories, user), last, overflow);
  }

  /** The limiter reads `ops` as two operations and the rest. */
  lemma {:induction false} TwoOps(l: Limiter, a: Op, b: Op, rest: seq<Op>, last: int, overflow: int)
    ensures var l2 := Do(Do(l, a, overflow), b, overflow);
            && DoAll(l, [a, b] + rest, overflow) == DoAll(l2, rest, overflow)
            && (Clocked(last, [a, b] + rest) <==>
                  TimeAfter(last, a) >= last && TimeAfter(TimeAfter(last, a), b) >= TimeAfter(last, a)
                  && Clocked(TimeAfter(TimeAfter(last, a), b), rest))
            && (a.Check? && b.Failure? ==>
                  (Gated(l, None, [a, b] + rest, overflow) <==>
                    Opens(l, a, overflow) == Some((b.user, b.ip)) && Gated(l2, None, rest, overflow)))
  {
    var ops := [a, b] + rest;
    assert ops[0] == a && ops[1..][0] == b && ops[1..][1..] == rest;
  }

  /** Failed logins at the times of `h` from `i` on form a gated run that ends in what `h` would leave. */
  ghost predicate Plays(user: string, h: seq<int>, i: nat, l: Limiter, last: int, overflow: int)
    requires i <= |h|
  {
    var ops := Logins(user, h, i);
    Clocked(last, ops) && Gated(l, None, ops, overflow) && Reflects(DoAll(l, ops, overflow), user, h, overflow)
  }

  lemma {:induction false} PlaysOneMore(user: string, h: seq<int>, i: nat, l: Limiter, last: int, overflow: int)
    requires i < |h| && last <= h[i]
    requires Opens(l, Check(user, "", h[i]), overflow) == Some((user, ""))
    requires Plays(user, h, i + 1, Do(Do(l, Check(user, "", h[i]), overflow), Failure(user, "", h[i]), overflow),
             h[i], overflow)
    ensures Plays(user, h, i, l, last, overflow)
  {
    TwoOps(l, Check(user, "", h[i]), Failure(user, "", h[i]), Logins(user, h, i + 1), last, overflow);
  }

  /** The state of a run that has played the first `i` failures of `h`. */
  ghost predicate Played(user: string, h: seq<int>, i: nat, l: Limiter, g: Ledger, last: int, overflow: int)
    requires i <= |h|
  {
    && RunOk(l, g, None, last, overflow)
    && HistoryOf(g.users, user) == h[..i]
    && (i < |h| ==> last <= h[i])
    && (i == |h| && h != [] ==> user in l.users && last == h[i - 1])
  }

  lemma PrefixSnoc(h: seq<int>, i: nat)
    requires i < |h|
    ensures h[..i] + [h[i]] == h[..i + 1]
  {
  }

  lemma {:induction false} PlayOne(user: string, h: seq<int>, i: nat, l: Limiter, g: Ledger, last: int, overflow: int)
    requires user != "" && i < |h| && Sorted(h) && WaitedOut(h, i, overflow) && Played(user, h, i, l, g, last, overflow)
    ensures Opens(l, Check(user, "", h[i]), overflow) == Some((user, ""))
    ensures Played(user, h, i + 1, Do(Do(l, Check(user, "", h[i]), overflow), Failure(user, "", h[i]), overflow),
                   SpecDo(g, Failure(user, "", h[i])), h[i], overflow)
  {
    PrefixSnoc(h, i);
    LoginRecorded(user, h[i], l, g, last, overflow);
  }

  lemma {:induction false} PlayedAll(user: string, h: seq<int>, l: Limiter, g: Ledger, last: int, overflow: int)
    requires Played(user, h, |h|, l, g, last, overflow)
    ensures Plays(user, h, |h|, l, last, overflow)
  {
    assert h[..|h|] == h;
    if h != [] {
      RecordReflects(l, g.users, user, h, last, overflow);
    }
  }

  /** Every respectful history is that of a gated run. */
  lemma {:induction false} HistoriesAreRealizable(user: string, h: seq<int>, i: nat, l: Limiter, g: Ledger, last: int,
                                                  overflow: int)
    requires user != "" && i <= |h| && Sorted(h) && Respectful(h, overflow) && Played(user, h, i, l, g, last, overflow)
    ensures Plays(user, h, i, l, last, overflow)
    decreases |h| - i
  {
    if i == |h| {
      PlayedAll(user, h, l, g, last, overflow);
    } else {
      var check, failure := Check(user, "", h[i]), Failure(user, "", h[i]);
      PlayOne(user, h, i, l, g, last, overflow);
      HistoriesAreRealizable(user, h, i + 1, Do(Do(l, check, overflow), failure, overflow), SpecDo(g, failure), h[i],
          overflow);
      PlaysOneMore(user, h, i, l, last, overflow);
    }
  }

  /** Eight respectful failures, the last one locking for eight minutes. */
  function TightHistory(t: int): seq<int> {
    [t, t, t, t, t, t + MINUTE, t + 3 * MINUTE, t + 7 * MINUTE]
  }

  lemma TightSorted(t: int)
    ensures Sorted(TightHistory(t))
    ensures forall x :: x in TightHistory(t) ==> t <= x <= t + 7 * MINUTE
  {
  }

  /** A sorted history that spans less than a window counts in full. */
  lemma {:induction false} CountsInFull(h: seq<int>)
    requires h != [] && Sorted(h) && h[0] > h[|h| - 1] - WINDOW
    ensures Count(h) == |h|
  {
    RecentAtLeast(h, h[|h| - 1] - WINDOW, |h|);
    RecentAtLeast(h, h[|h| - 1] - WINDOW, |h| + 1);
  }

  lemma {:induction false} TightPrefix(t: int, n: nat, overflow: int)
    requires t >= 0 && n <= 8
    ensures n >= 1 ==> Count(TightHistory(t)[..n]) == n
    ensures LockedUntil(TightHistory(t)[..n], overflow) ==
            if n < 5 then 0 else TightHistory(t)[n - 1] + Pow2(n - 5) * MINUTE
    decreases n
  {
    var h := TightHistory(t);
    var p := h[..n];
    if n > 0 {
      TightSorted(t);
      TightPrefix(t, n - 1, overflow);
      assert p[..n - 1] == h[..n - 1];
      assert p[n - 1] in h && p[0] in h;
      CountsInFull(p);
      if n >= 5 {
        LockoutDelays(p, overflow);
      }
    }
  }

  /** The bound is tight: a gated run in which a record holds eight failures and the lockout is eight minutes. */
  lemma {:induction false} EightIsReached(user: string, t: int, overflow: int)
    requires user != "" && t >= 0
    ensures var ops := Logins(user, TightHistory(t), 0);
            var l := NEW_LIMITER;
            && Clocked(0, ops) && Gated(l, None, ops, overflow)
            && user in DoAll(l, ops, overflow).users
            && |DoAll(l, ops, overflow).users[user].failures| == 8
            && DoAll(l, ops, overflow).users[user].lockedUntil == t + 7 * MINUTE + 8 * MINUTE
  {
    var h := TightHistory(t);
    forall i | 0 <= i < |h|
      ensures WaitedOut(h, i, overflow)
    {
      TightPrefix(t, i, overflow);
      Pow2Values();
    }
    TightSorted(t);
    TightPrefix(t, 8, overflow);
    Pow2Values();
    assert h[..8] == h;
    FreshRunOk(overflow);
    HistoriesAreRealizable(user, h, 0, NEW_LIMITER, NEW_LEDGER, 0, overflow);
  }
}
