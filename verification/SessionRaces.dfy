/**
 Sessions without the assumption that requests are serialized: a request reads its
 row, then takes the time, and then touches or deletes the row, in three steps, while
 other requests, revocations and purges do the same.
 */
module SessionRaces {
  import opened Wrappers
  import opened Sessions

  /**
   A request under way: the row it read, the time of that reading (which the code does not
   know), and the time it took afterwards, if it has.
   */
  datatype Flight = Flight(token: Token, row: Session, readAt: int, stamp: Option<int>)

  /**
   `issued` has every session as issued, `touched` those whose row was ever written since,
   `standard` those without remember-me, and `lastAccepted` the latest time an accepted request took.
   */
  datatype Race = Race(
    table: Table,
    flights: map<nat, Flight>,
    issued: Table,
    touched: set<Token>,
    standard: set<Token>,
    lastAccepted: map<Token, int>,
    clock: int)

  // A purge takes the time before its query runs; a removal is a logout or a revocation.
  datatype Step =
    | Start(token: Token, userId: int, rememberMe: bool, now: int)
    | Read(request: nat, reader: Token, now: int)
    | Stamp(request: nat, now: int)
    | Settle(request: nat, now: int)
    | Purge(cutoff: int, now: int)
    | Remove(removed: Token)

  function Clamp(t: int, limit: int): int {
    if t > limit then limit else t
  }

  predicate Slides(c: Config, row: Session, at: int) {
    at > row.expiresAt - c.idle / 2
  }

  predicate Stamped(s: Race, q: nat) {
    q in s.flights && s.flights[q].stamp.Some?
  }

  /** A request whose token has no row is turned away without a further step. */
  predicate Enabled(s: Race, step: Step) {
    match step
    case Start(token, _, _, now) => now >= s.clock && token !in s.issued
    case Read(q, token, now) => now >= s.clock && q !in s.flights && token in s.table
    case Stamp(q, now) => now >= s.clock && q in s.flights && s.flights[q].stamp.None?
    case Settle(q, now) => now >= s.clock && Stamped(s, q)
    case Purge(cutoff, now) => cutoff <= now && now >= s.clock
    case Remove(_) => true
  }

  function AcceptedAt(m: map<Token, int>, token: Token, at: int): map<Token, int> {
    m[token := if token in m && m[token] > at then m[token] else at]
  }

  /** The write that ends a request: delete, touch or nothing, on whatever the row is by now. */
  function Settled(c: Config, s: Race, f: Flight, at: int): Race {
    if Expired(f.row, at) then s.(table := s.table - {f.token})
    else
      var s' := s.(lastAccepted := AcceptedAt(s.lastAccepted, f.token, at));
      if Slides(c, f.row, at) && f.token in s.table then
        var row := s.table[f.token].(expiresAt := Clamp(at + c.idle, f.row.absoluteExpiresAt), lastSeenAt := at);
        s'.(table := s.table[f.token := row], touched := s.touched + {f.token})
      else s'
  }

  function Apply(c: Config, s: Race, step: Step): Race
    requires Enabled(s, step)
  {
    match step
    case Start(token, userId, rememberMe, now) =>
      var row := NewSession(c, userId, rememberMe, now);
      s.(table := s.table[token := row], issued := s.issued[token := row],
         standard := if rememberMe then s.standard else s.standard + {token}, clock := now)
    case Read(q, token, now) =>
      s.(flights := s.flights[q := Flight(token, s.table[token], now, None)], clock := now)
    case Stamp(q, now) => s.(flights := s.flights[q := s.flights[q].(stamp := Some(now))], clock := now)
    case Settle(q, now) =>
      Settled(c, s, s.flights[q], s.flights[q].stamp.value).(flights := s.flights - {q}, clock := now)
    case Purge(cutoff, now) => s.(table := Purged(s.table, cutoff), clock := now)
    case Remove(token) => s.(table := s.table - {token})
  }

  // ----- uninterrupted, the steps are the serialized operations -----

  /** Issuing a session. */
  lemma StartIsIssue(c: Config, s: Race, users: set<int>, step: Step)
    requires step.Start? && Enabled(s, step) && step.token !in s.table
    ensures Apply(c, s, step).table ==
            Do(c, State(s.table, users), Issue(step.token, step.userId, step.rememberMe, step.now)).sessions
  {
  }

  /** Reading, taking the time and writing, at one moment: the table and the acceptance of the interceptor. */
  lemma TripleIsAuthenticate(c: Config, s: Race, q: nat, token: Token, now: int, users: set<int>)
    requires Enabled(s, Read(q, token, now)) && token != "" && s.table[token].userId in users
    ensures var s1 := Apply(c, s, Read(q, token, now));
            && Enabled(s1, Stamp(q, now)) && Enabled(Apply(c, s1, Stamp(q, now)), Settle(q, now))
            && var s' := Apply(c, Apply(c, s1, Stamp(q, now)), Settle(q, now));
               && s'.table == AfterAuthenticate(c, State(s.table, users), token, now).sessions
               && s'.flights == s.flights
               && (s'.lastAccepted != s.lastAccepted ==> Accepted(State(s.table, users), token, now))
               && (Accepted(State(s.table, users), token, now) ==>
                   token in s'.lastAccepted && s'.lastAccepted[token] >= now)
  {
  }

  // ----- what every interleaving keeps -----

  /** A row is as issued or as some request touched it. */
  ghost predicate RowOk(s: Race, t: Token, r: Session)
    requires t in s.issued
  {
    && r.absoluteExpiresAt == s.issued[t].absoluteExpiresAt && r.userId == s.issued[t].userId
    && r.expiresAt <= r.absoluteExpiresAt
    && s.issued[t].lastSeenAt <= r.lastSeenAt <= s.clock
    && (t !in s.touched ==> r == s.issued[t])
  }

  function LastActive(s: Race, t: Token): int
    requires t in s.issued
  {
    if t in s.lastAccepted && s.lastAccepted[t] > s.issued[t].lastSeenAt
      then s.lastAccepted[t] else s.issued[t].lastSeenAt
  }

  ghost predicate EntryOk(c: Config, s: Race, t: Token)
    requires t in s.table
  {
    && t in s.issued && RowOk(s, t, s.table[t])
    && (t in s.touched ==> s.table[t].expiresAt == Clamp(s.table[t].lastSeenAt + c.idle, s.table[t].absoluteExpiresAt))
    && (t in s.standard ==> s.table[t].expiresAt <= LastActive(s, t) + c.idle)
  }

  ghost predicate TableOk(c: Config, s: Race) {
    forall t :: t in s.table ==> EntryOk(c, s, t)
  }

  ghost predicate FlightOk(s: Race, f: Flight) {
    && f.token in s.issued && RowOk(s, f.token, f.row)
    && s.issued[f.token].lastSeenAt <= f.readAt <= s.clock
    && (f.stamp.Some? ==> f.readAt <= f.stamp.value <= s.clock)
  }

  ghost predicate FlightsOk(s: Race) {
    forall q :: q in s.flights ==> FlightOk(s, s.flights[q])
  }

  ghost predicate RaceOk(c: Config, s: Race) {
    && TableOk(c, s)
    && FlightsOk(s)
    && (forall t :: t in s.lastAccepted ==> t in s.issued && s.lastAccepted[t] <= s.clock)
    && (forall t :: t in s.issued ==>
        s.issued[t].expiresAt <= s.issued[t].absoluteExpiresAt && s.issued[t].lastSeenAt <= s.clock)
    && s.standard <= s.issued.Keys && s.touched <= s.issued.Keys
  }

  /** The session the request is of. */
  lemma SettleKeepsOwn(c: Config, s: Race, q: nat, now: int)
    requires Validated(c) && RaceOk(c, s) && Enabled(s, Settle(q, now))
    requires s.flights[q].token in Apply(c, s, Settle(q, now)).table
    ensures EntryOk(c, Apply(c, s, Settle(q, now)), s.flights[q].token)
  {
    assert FlightOk(s, s.flights[q]) && EntryOk(c, s, s.flights[q].token);
  }

  /** Every other session. */
  lemma SettleKeepsOther(c: Config, s: Race, q: nat, now: int, t: Token)
    requires Enabled(s, Settle(q, now)) && t != s.flights[q].token && t in s.table && EntryOk(c, s, t)
    ensures t in Apply(c, s, Settle(q, now)).table && EntryOk(c, Apply(c, s, Settle(q, now)), t)
  {
    var s' := Apply(c, s, Settle(q, now));
    assert s'.table[t] == s.table[t] && LastActive(s', t) == LastActive(s, t);
  }

  lemma SettleKeepsTable(c: Config, s: Race, q: nat, now: int)
    requires Validated(c) && RaceOk(c, s) && Enabled(s, Settle(q, now))
    ensures TableOk(c, Apply(c, s, Settle(q, now)))
  {
    var s' := Apply(c, s, Settle(q, now));
    forall t | t in s'.table
      ensures EntryOk(c, s', t)
    {
      if t == s.flights[q].token {
        SettleKeepsOwn(c, s, q, now);
      } else {
        SettleKeepsOther(c, s, q, now, t);
      }
    }
  }

  /** Time passing and further touches keep a flight in order. */
  lemma FlightLater(s: Race, s': Race, f: Flight)
    requires FlightOk(s, f) && f.token in s'.issued && s'.issued[f.token] == s.issued[f.token]
    requires s.touched <= s'.touched && s.clock <= s'.clock
    ensures FlightOk(s', f)
  {
  }

  lemma SettleKeeps(c: Config, s: Race, q: nat, now: int)
    requires Validated(c) && RaceOk(c, s) && Enabled(s, Settle(q, now))
    ensures RaceOk(c, Apply(c, s, Settle(q, now)))
  {
    var s' := Apply(c, s, Settle(q, now));
    SettleKeepsTable(c, s, q, now);
    forall p | p in s'.flights
      ensures FlightOk(s', s'.flights[p])
    {
      FlightLater(s, s', s.flights[p]);
    }
    assert FlightOk(s, s.flights[q]);
  }

  lemma StartKeeps(c: Config, s: Race, step: Step)
    requires Validated(c) && RaceOk(c, s) && Enabled(s, step) && step.Start?
    ensures RaceOk(c, Apply(c, s, step))
  {
    var s' := Apply(c, s, step);
    forall t | t in s'.table
      ensures EntryOk(c, s', t)
    {
      if t != step.token {
        assert t in s.table && EntryOk(c, s, t) && LastActive(s', t) == LastActive(s, t);
      }
    }
    forall p | p in s'.flights
      ensures FlightOk(s', s'.flights[p])
    {
      FlightLater(s, s', s.flights[p]);
    }
  }

  lemma ReadKeeps(c: Config, s: Race, step: Step)
    requires Validated(c) && RaceOk(c, s) && Enabled(s, step)
             && (step.Read? || step.Stamp? || step.Purge? || step.Remove?)
    ensures RaceOk(c, Apply(c, s, step))
  {
    var s' := Apply(c, s, step);
    forall t | t in s'.table
      ensures EntryOk(c, s', t)
    {
      assert EntryOk(c, s, t) && LastActive(s', t) == LastActive(s, t);
    }
    forall p | p in s'.flights
      ensures FlightOk(s', s'.flights[p])
    {
      if p in s.flights {
        FlightLater(s, s', s.flights[p]);
      } else {
        assert EntryOk(c, s, step.reader);
      }
    }
  }

  lemma StepKeeps(c: Config, s: Race, step: Step)
    requires Validated(c) && RaceOk(c, s) && Enabled(s, step)
    ensures RaceOk(c, Apply(c, s, step))
  {
    match step
    case Start(_, _, _, _) => StartKeeps(c, s, step);
    case Settle(q, now) => SettleKeeps(c, s, q, now);
    case _ => ReadKeeps(c, s, step);
  }

  // ----- runs -----

  predicate Runs(c: Config, s: Race, steps: seq<Step>)
    decreases |steps|
  {
    steps != [] ==> Enabled(s, steps[0]) && Runs(c, Apply(c, s, steps[0]), steps[1..])
  }

  function RunAll(c: Config, s: Race, steps: seq<Step>): Race
    requires Runs(c, s, steps)
    decreases |steps|
  {
    if steps == [] then s else RunAll(c, Apply(c, s, steps[0]), steps[1..])
  }

  /** Requests write within `slack` of reading their row. */
  predicate Prompt(slack: int, s: Race, step: Step)
    requires Enabled(s, step)
  {
    step.Settle? ==> step.now <= s.flights[step.request].readAt + slack
  }

  predicate RunsPromptly(c: Config, slack: int, s: Race, steps: seq<Step>)
    decreases |steps|
  {
    steps != [] ==>
      Enabled(s, steps[0]) && Prompt(slack, s, steps[0]) && RunsPromptly(c, slack, Apply(c, s, steps[0]), steps[1..])
  }

  const NOBODY := Race(map[], map[], map[], {}, {}, map[], 0)

  lemma {:induction false} RunKeeps(c: Config, s: Race, steps: seq<Step>)
    requires Validated(c) && RaceOk(c, s) && Runs(c, s, steps)
    ensures RaceOk(c, RunAll(c, s, steps))
    decreases |steps|
  {
    if steps != [] {
      StepKeeps(c, s, steps[0]);
      RunKeeps(c, Apply(c, s, steps[0]), steps[1..]);
    }
  }

  lemma {:induction false} RunSnoc(c: Config, slack: int, s: Race, steps: seq<Step>, step: Step)
    requires Runs(c, s, steps) && Enabled(RunAll(c, s, steps), step)
    ensures Runs(c, s, steps + [step]) && RunAll(c, s, steps + [step]) == Apply(c, RunAll(c, s, steps), step)
    ensures RunsPromptly(c, slack, s, steps) && Prompt(slack, RunAll(c, s, steps), step) ==>
      RunsPromptly(c, slack, s, steps + [step])
    decreases |steps|
  {
    var all := steps + [step];
    if steps == [] {
      assert all == [step] && all[1..] == [];
    } else {
      RunSnoc(c, slack, Apply(c, s, steps[0]), steps[1..], step);
      assert all[0] == steps[0] && all[1..] == steps[1..] + [step];
    }
  }

  /**
   Over every interleaving, however slow the requests: deadlines stay within the absolute
   one fixed at issue, and a standard session is turned away once it has been inactive for
   more than the idle timeout.
   */
  lemma DeadlinesUnderRaces(c: Config, steps: seq<Step>, t: Token, now: int)
    requires Validated(c) && Runs(c, NOBODY, steps) && t in RunAll(c, NOBODY, steps).table
    ensures var s := RunAll(c, NOBODY, steps);
            && t in s.issued
            && s.table[t].expiresAt <= s.table[t].absoluteExpiresAt == s.issued[t].absoluteExpiresAt
            && (t in s.standard && now > LastActive(s, t) + c.idle ==> Expired(s.table[t], now))
  {
    RunKeeps(c, NOBODY, steps);
    var s := RunAll(c, NOBODY, steps);
    assert EntryOk(c, s, t);
  }

  // ----- deadlines can move back -----

  /**
   A touch moves the deadline back exactly when a request that took a later time has already
   touched the row and neither is at the absolute deadline.
   */
  lemma TouchRewindsIff(c: Config, s: Race, q: nat, now: int)
    requires Validated(c) && RaceOk(c, s) && Enabled(s, Settle(q, now))
    requires Touches(c, s, s.flights[q])
    ensures var t, at := s.flights[q].token, s.flights[q].stamp.value;
            && t in Apply(c, s, Settle(q, now)).table
            && (Apply(c, s, Settle(q, now)).table[t].expiresAt < s.table[t].expiresAt <==>
                  at < s.table[t].lastSeenAt && at + c.idle < s.table[t].absoluteExpiresAt)
  {
    var f := s.flights[q];
    assert FlightOk(s, f) && EntryOk(c, s, f.token);
  }

  /** Two requests of one session that read its row as issued, at `begun`, and take the times `first` and `second`. */
  function Overlap(token: Token, userId: int, begun: int, first: int, second: int): seq<Step> {
    [Start(token, userId, false, 0)] + [Read(1, token, begun)] + [Read(2, token, begun)] + [Stamp(1, first)]
      + [Stamp(2, second)]
  }

  lemma OverlapRuns(c: Config, slack: int, token: Token, userId: int, begun: int, first: int, second: int)
    requires Validated(c) && 0 <= begun <= first <= second
    ensures RunsPromptly(c, slack, NOBODY, Overlap(token, userId, begun, first, second))
    ensures Runs(c, NOBODY, Overlap(token, userId, begun, first, second))
    ensures var row := NewSession(c, userId, false, 0);
            RunAll(c, NOBODY, Overlap(token, userId, begun, first, second)) ==
            Race(map[token := row],
                map[1 := Flight(token, row, begun, Some(first)), 2 := Flight(token, row, begun, Some(second))],
                 map[token := row], {}, {token}, map[], second)
  {
    var start := Start(token, userId, false, 0);
    RunSnoc(c, slack, NOBODY, [], start);
    assert [] + [start] == [start];
    RunSnoc(c, slack, NOBODY, [start], Read(1, token, begun));
    RunSnoc(c, slack, NOBODY, [start] + [Read(1, token, begun)], Read(2, token, begun));
    RunSnoc(c, slack, NOBODY, [start] + [Read(1, token, begun)] + [Read(2, token, begun)], Stamp(1, first));
    RunSnoc(c, slack, NOBODY, [start] + [Read(1, token, begun)] + [Read(2, token, begun)] + [Stamp(1, first)],
        Stamp(2, second));
  }

  /** It can happen, however prompt the requests: two of one session, the earlier one touching last. */
  lemma RewindHappens(c: Config, slack: int, token: Token, userId: int) returns (steps: seq<Step>, q: nat, now: int)
    requires Validated(c) && slack >= 1 && c.idle >= 4 && c.absolute >= 2 * c.idle
    ensures RunsPromptly(c, slack, NOBODY, steps) && Runs(c, NOBODY, steps)
    ensures var s := RunAll(c, NOBODY, steps);
            Enabled(s, Settle(q, now)) && Prompt(slack, s, Settle(q, now))
    ensures var s := RunAll(c, NOBODY, steps);
            var s' := Apply(c, s, Settle(q, now));
            token in s.table && token in s'.table && s'.table[token].expiresAt < s.table[token].expiresAt
  {
    var overlap := Overlap(token, userId, c.idle - 1, c.idle - 1, c.idle);
    OverlapRuns(c, slack, token, userId, c.idle - 1, c.idle - 1, c.idle);
    RunSnoc(c, slack, NOBODY, overlap, Settle(2, c.idle));
    steps, q, now := overlap + [Settle(2, c.idle)], 1, c.idle;
  }

  // ----- and an active session can be lost -----

  /**
   The step takes the session away: a removal, a purge whose time is past the row's deadlines,
   or a request that took a time past the deadline it had read, whatever the row says by now.
   */
  predicate Drops(s: Race, step: Step, t: Token) {
    && t in s.table
    && (|| step == Remove(t)
        || (step.Purge? && Expired(s.table[t], step.cutoff))
        || (step.Settle? && Stamped(s, step.request) && s.flights[step.request].token == t
            && s.flights[step.request].stamp.value > s.flights[step.request].row.expiresAt))
  }

  predicate EverDrops(c: Config, s: Race, steps: seq<Step>, t: Token)
    requires Runs(c, s, steps)
    decreases |steps|
  {
    steps != [] && (Drops(s, steps[0], t) || EverDrops(c, Apply(c, s, steps[0]), steps[1..], t))
  }

  /** No other step does, and no step brings it back. */
  lemma StepDropsIff(c: Config, s: Race, step: Step, t: Token)
    requires Validated(c) && RaceOk(c, s) && Enabled(s, step) && t in s.issued
    ensures t in Apply(c, s, step).table <==> t in s.table && !Drops(s, step, t)
  {
    if step.Settle? {
      assert FlightOk(s, s.flights[step.request]);
    }
  }

  /**
   Over every interleaving a session's row is there exactly when no step has taken it away; in
   particular it never comes back.
   */
  lemma {:induction false} PresentIff(c: Config, s: Race, steps: seq<Step>, t: Token)
    requires Validated(c) && RaceOk(c, s) && Runs(c, s, steps) && t in s.issued
    ensures t in RunAll(c, s, steps).table <==> t in s.table && !EverDrops(c, s, steps, t)
    decreases |steps|
  {
    if steps != [] {
      StepKeeps(c, s, steps[0]);
      StepDropsIff(c, s, steps[0], t);
      PresentIff(c, Apply(c, s, steps[0]), steps[1..], t);
    }
  }

  /** The same from before the session is issued. */
  lemma {:induction false} PresentSinceIssue(c: Config, s: Race, steps: seq<Step>, t: Token)
    requires Validated(c) && RaceOk(c, s) && Runs(c, s, steps) && t !in s.issued && t in RunAll(c, s, steps).issued
    ensures t in RunAll(c, s, steps).table <==> !EverDrops(c, s, steps, t)
    decreases |steps|
  {
    if steps != [] {
      StepKeeps(c, s, steps[0]);
      if t in Apply(c, s, steps[0]).issued {
        PresentIff(c, Apply(c, s, steps[0]), steps[1..], t);
      } else {
        PresentSinceIssue(c, Apply(c, s, steps[0]), steps[1..], t);
      }
    }
  }

  /**
   It happens to an active user, however prompt the requests: one is accepted at the last
   moment and extends the session to a whole idle timeout from then, and another, which had
   read the row before that, finds its copy expired and deletes the row.
   */
  lemma ActiveSessionLost(c: Config, slack: int, token: Token, userId: int) returns (steps: seq<Step>, drop: Step)
    requires Validated(c) && slack >= 1 && c.idle >= 4 && c.absolute >= 2 * c.idle
    ensures RunsPromptly(c, slack, NOBODY, steps) && Runs(c, NOBODY, steps) && drop.Settle?
    ensures RunsPromptly(c, slack, NOBODY, steps + [drop]) && Runs(c, NOBODY, steps + [drop])
    ensures forall i :: 0 <= i < |steps| ==> !steps[i].Remove?
    ensures var s := RunAll(c, NOBODY, steps);
            && token in s.lastAccepted && s.lastAccepted[token] == drop.now - 1
            && token in s.table && s.table[token].expiresAt == s.lastAccepted[token] + c.idle
    ensures token !in RunAll(c, NOBODY, steps + [drop]).table
  {
    var overlap := Overlap(token, userId, c.idle, c.idle, c.idle + 1);
    OverlapRuns(c, slack, token, userId, c.idle, c.idle, c.idle + 1);
    RunSnoc(c, slack, NOBODY, overlap, Settle(1, c.idle + 1));
    steps, drop := overlap + [Settle(1, c.idle + 1)], Settle(2, c.idle + 1);
    RunSnoc(c, slack, NOBODY, steps, drop);
  }

  // ----- what an active user can count on -----

  /** How late a write may be for the theorem below to hold: half of what half an idle timeout leaves of a whole one. */
  predicate Tolerable(c: Config, slack: int) {
    2 * slack <= c.idle - c.idle / 2
  }

  /** The row outlasts `at` by half an idle timeout, or lasts to its absolute deadline. */
  predicate Outlasts(c: Config, r: Session, at: int) {
    r.expiresAt >= Clamp(at + c.idle / 2, r.absoluteExpiresAt)
  }

  /** Whoever was accepted has half an idle timeout from then. */
  predicate AcceptedHalf(c: Config, s: Race, t: Token) {
    t in s.table && t in s.lastAccepted ==> Outlasts(c, s.table[t], s.lastAccepted[t])
  }

  /** The row read by a request under way has not since been moved back behind what a prompt request may rely on. */
  predicate ReadHalf(c: Config, slack: int, s: Race, f: Flight) {
    f.token in s.table ==>
      || s.table[f.token].expiresAt >= f.row.expiresAt
      || Outlasts(c, s.table[f.token], f.readAt + slack)
  }

  ghost predicate HalfIdleLeft(c: Config, slack: int, s: Race) {
    && (forall t :: t in s.table ==> AcceptedHalf(c, s, t))
    && (forall q :: q in s.flights ==> ReadHalf(c, slack, s, s.flights[q]))
  }

  /** A prompt touch gives every request read up to now, and everyone accepted up to now, their half. */
  lemma TouchOutlasts(c: Config, slack: int, r: Session, at: int, now: int, other: int)
    requires Validated(c) && Tolerable(c, slack) && now <= at + slack && other <= now
    requires r.expiresAt == Clamp(at + c.idle, r.absoluteExpiresAt)
    ensures Outlasts(c, r, other) && Outlasts(c, r, other + slack)
  {
  }

  predicate Touches(c: Config, s: Race, f: Flight) {
    f.stamp.Some? && !Expired(f.row, f.stamp.value) && Slides(c, f.row, f.stamp.value) && f.token in s.table
  }

  /** The session the request is of, and the requests under way on it. */
  lemma TouchKeepsHalf(c: Config, slack: int, s: Race, q: nat, now: int, p: nat)
    requires Validated(c) && Tolerable(c, slack) && RaceOk(c, s) && HalfIdleLeft(c, slack, s)
             && Enabled(s, Settle(q, now)) && Prompt(slack, s, Settle(q, now))
    requires Touches(c, s, s.flights[q]) && p in s.flights && s.flights[p].token == s.flights[q].token
    ensures var s' := Apply(c, s, Settle(q, now));
            AcceptedHalf(c, s', s.flights[q].token) && ReadHalf(c, slack, s', s.flights[p])
  {
    var f := s.flights[q];
    var s' := Apply(c, s, Settle(q, now));
    var row := s'.table[f.token];
    assert FlightOk(s, f) && EntryOk(c, s, f.token) && FlightOk(s, s.flights[p]);
    TouchOutlasts(c, slack, row, f.stamp.value, now, s'.lastAccepted[f.token]);
    TouchOutlasts(c, slack, row, f.stamp.value, now, s.flights[p].readAt);
  }

  /** A request that is accepted and does not touch still leaves its session half an idle timeout. */
  lemma NoTouchKeepsHalf(c: Config, slack: int, s: Race, q: nat, now: int)
    requires Validated(c) && Tolerable(c, slack) && RaceOk(c, s) && HalfIdleLeft(c, slack, s)
             && Enabled(s, Settle(q, now)) && Prompt(slack, s, Settle(q, now))
    requires !Touches(c, s, s.flights[q])
    ensures AcceptedHalf(c, Apply(c, s, Settle(q, now)), s.flights[q].token)
  {
    var f := s.flights[q];
    if f.token in s.table && !Expired(f.row, f.stamp.value) {
      assert FlightOk(s, f) && EntryOk(c, s, f.token) && AcceptedHalf(c, s, f.token) && ReadHalf(c, slack, s, f);
      assert Outlasts(c, s.table[f.token], f.stamp.value);
    }
  }

  lemma SettleKeepsHalfIdle(c: Config, slack: int, s: Race, q: nat, now: int)
    requires Validated(c) && Tolerable(c, slack) && RaceOk(c, s) && HalfIdleLeft(c, slack, s)
             && Enabled(s, Settle(q, now)) && Prompt(slack, s, Settle(q, now))
    ensures HalfIdleLeft(c, slack, Apply(c, s, Settle(q, now)))
  {
    var f := s.flights[q];
    var s' := Apply(c, s, Settle(q, now));
    forall t | t in s'.table
      ensures AcceptedHalf(c, s', t)
    {
      if t != f.token {
        assert AcceptedHalf(c, s, t);
      } else if Touches(c, s, f) {
        TouchKeepsHalf(c, slack, s, q, now, q);
      } else {
        NoTouchKeepsHalf(c, slack, s, q, now);
      }
    }
    forall p | p in s'.flights
      ensures ReadHalf(c, slack, s', s'.flights[p])
    {
      if Touches(c, s, f) && s.flights[p].token == f.token {
        TouchKeepsHalf(c, slack, s, q, now, p);
      } else {
        assert ReadHalf(c, slack, s, s.flights[p]);
      }
    }
  }

  lemma StepKeepsHalfIdle(c: Config, slack: int, s: Race, step: Step)
    requires Validated(c) && Tolerable(c, slack) && RaceOk(c, s) && HalfIdleLeft(c, slack, s) && Enabled(s, step)
             && Prompt(slack, s, step)
    ensures HalfIdleLeft(c, slack, Apply(c, s, step))
  {
    if step.Settle? {
      SettleKeepsHalfIdle(c, slack, s, step.request, step.now);
      return;
    }
    var s' := Apply(c, s, step);
    forall t | t in s'.table
      ensures AcceptedHalf(c, s', t)
    {
      assert t in s.table ==> AcceptedHalf(c, s, t);
    }
    forall q | q in s'.flights
      ensures ReadHalf(c, slack, s', s'.flights[q])
    {
      if q in s.flights {
        assert ReadHalf(c, slack, s, s.flights[q]) && FlightOk(s, s.flights[q]);
      }
    }
  }

  lemma {:induction false} RunKeepsHalfIdle(c: Config, slack: int, s: Race, steps: seq<Step>)
    requires Validated(c) && Tolerable(c, slack) && RaceOk(c, s) && HalfIdleLeft(c, slack, s) && Runs(c, s, steps)
             && RunsPromptly(c, slack, s, steps)
    ensures HalfIdleLeft(c, slack, RunAll(c, s, steps))
    decreases |steps|
  {
    if steps != [] {
      StepKeeps(c, s, steps[0]);
      StepKeepsHalfIdle(c, slack, s, steps[0]);
      RunKeepsHalfIdle(c, slack, Apply(c, s, steps[0]), steps[1..]);
    }
  }

  /**
   Over every interleaving of requests that write within the tolerable slack: a session last
   accepted within half an idle timeout, and not past its absolute deadline, is accepted again
   if and only if no step has taken it away, be it a removal, a purge or a request that had
   read the row before it was touched.
   */
  lemma ActiveUnderRaces(c: Config, slack: int, steps: seq<Step>, t: Token, now: int)
    requires Validated(c) && Tolerable(c, slack) && Runs(c, NOBODY, steps) && RunsPromptly(c, slack, NOBODY, steps)
    requires var s := RunAll(c, NOBODY, steps);
             t in s.lastAccepted && now <= s.lastAccepted[t] + c.idle / 2
             && t in s.issued && now <= s.issued[t].absoluteExpiresAt
    ensures var s := RunAll(c, NOBODY, steps);
            t in s.table && !Expired(s.table[t], now) <==> !EverDrops(c, NOBODY, steps, t)
  {
    var s := RunAll(c, NOBODY, steps);
    RunKeeps(c, NOBODY, steps);
    RunKeepsHalfIdle(c, slack, NOBODY, steps);
    PresentSinceIssue(c, NOBODY, steps, t);
    if t in s.table {
      assert EntryOk(c, s, t) && AcceptedHalf(c, s, t);
    }
  }

  // ----- no more slack is tolerable -----

  /** Three requests: the second touches, the third reads the row, and the first moves it back. */
  lemma MovedBack(c: Config, slack: int, token: Token, userId: int, b: int) returns (steps: seq<Step>)
    requires Validated(c) && 0 < b <= slack && b < c.idle / 2 && c.absolute >= 3 * c.idle
    ensures RunsPromptly(c, slack, NOBODY, steps) && Runs(c, NOBODY, steps)
    ensures var s := RunAll(c, NOBODY, steps);
            && s.table.Keys == {token} && s.table[token].expiresAt == 2 * c.idle - b && s.clock == c.idle
            && s.issued == map[token := NewSession(c, userId, false, 0)]
            && 3 in s.flights && s.flights[3].token == token && s.flights[3].readAt == c.idle
            && s.flights[3].stamp == None
            && s.flights[3].row.expiresAt == 2 * c.idle && s.flights[3].row.absoluteExpiresAt == c.absolute
            && token in s.lastAccepted && s.lastAccepted[token] == c.idle
  {
    var t := c.idle;
    steps := Overlap(token, userId, t - b, t - b, t);
    OverlapRuns(c, slack, token, userId, t - b, t - b, t);
    RunSnoc(c, slack, NOBODY, steps, Settle(2, t));
    steps := steps + [Settle(2, t)];
    RunSnoc(c, slack, NOBODY, steps, Read(3, token, t));
    steps := steps + [Read(3, token, t)];
    RunSnoc(c, slack, NOBODY, steps, Settle(1, t));
    steps := steps + [Settle(1, t)];
  }

  /**
   For any larger slack there is a run in which nothing takes the session away and yet, within
   half an idle timeout of its last acceptance, it has expired.
   */
  lemma SlackIsTight(c: Config, slack: int, token: Token, userId: int) returns (steps: seq<Step>, now: int)
    requires Validated(c) && !Tolerable(c, slack) && c.idle >= 8 && c.absolute >= 3 * c.idle
    ensures RunsPromptly(c, slack, NOBODY, steps) && Runs(c, NOBODY, steps)
    ensures var s := RunAll(c, NOBODY, steps);
            && token in s.lastAccepted && now <= s.lastAccepted[token] + c.idle / 2
            && token in s.issued && now <= s.issued[token].absoluteExpiresAt
            && token in s.table && Expired(s.table[token], now) && !EverDrops(c, NOBODY, steps, token)
  {
    var b := (c.idle - c.idle / 2) / 2 + 1;
    var t := c.idle + b;
    steps := MovedBack(c, slack, token, userId, b);
    RunSnoc(c, slack, NOBODY, steps, Stamp(3, t));
    steps := steps + [Stamp(3, t)];
    RunSnoc(c, slack, NOBODY, steps, Settle(3, t));
    steps, now := steps + [Settle(3, t)], t + c.idle / 2;
    PresentSinceIssue(c, NOBODY, steps, token);
  }

  // ----- when a purge costs an active user the session -----

  /** The step accepts a request of the session that took a time not before `from`. */
  predicate Accepts(s: Race, step: Step, t: Token, from: int) {
    && step.Settle? && Stamped(s, step.request) && s.flights[step.request].token == t
    && !Expired(s.flights[step.request].row, s.flights[step.request].stamp.value)
    && s.flights[step.request].stamp.value >= from
  }

  predicate AcceptedSince(c: Config, s: Race, steps: seq<Step>, t: Token, from: int)
    requires Runs(c, s, steps)
    decreases |steps|
  {
    steps != [] && (Accepts(s, steps[0], t, from) || AcceptedSince(c, Apply(c, s, steps[0]), steps[1..], t, from))
  }

  predicate LastSince(s: Race, t: Token, from: int) {
    t in s.lastAccepted && s.lastAccepted[t] >= from
  }

  lemma {:induction false} LastSinceIff(c: Config, s: Race, steps: seq<Step>, t: Token, from: int)
    requires Runs(c, s, steps)
    ensures LastSince(RunAll(c, s, steps), t, from) <==> LastSince(s, t, from) || AcceptedSince(c, s, steps, t, from)
    ensures s.clock <= RunAll(c, s, steps).clock
    decreases |steps|
  {
    if steps != [] {
      LastSinceIff(c, Apply(c, s, steps[0]), steps[1..], t, from);
    }
  }

  /** A request of a session that is gone was under way when it went. */
  lemma {:induction false} AcceptedWasUnderWay(c: Config, s: Race, steps: seq<Step>, t: Token, from: int)
    returns (q: nat)
    requires Validated(c) && RaceOk(c, s) && Runs(c, s, steps) && t in s.issued && t !in s.table
    requires AcceptedSince(c, s, steps, t, from)
    ensures q in s.flights && s.flights[q].token == t
    decreases |steps|
  {
    if Accepts(s, steps[0], t, from) {
      q := steps[0].request;
    } else {
      StepKeeps(c, s, steps[0]);
      StepDropsIff(c, s, steps[0], t);
      q := AcceptedWasUnderWay(c, Apply(c, s, steps[0]), steps[1..], t, from);
    }
  }

  /**
   A purge takes away a session that is active later, at `now`, if and only if a request that was
   under way at the purge is accepted after it, with a time not more than half an idle timeout
   before `now`. So no purge costs an active user the session unless it overlaps a request.
   */
  lemma PurgeCostsIff(c: Config, slack: int, before: seq<Step>, purge: Step, after: seq<Step>, t: Token, now: int)
    requires Validated(c) && Tolerable(c, slack) && Runs(c, NOBODY, before) && RunsPromptly(c, slack, NOBODY, before)
    requires var s := RunAll(c, NOBODY, before);
             && purge.Purge? && Enabled(s, purge) && Drops(s, purge, t) && t in s.issued
             && Runs(c, Apply(c, s, purge), after)
             && RunAll(c, Apply(c, s, purge), after).clock <= now <= s.issued[t].absoluteExpiresAt
    ensures var s' := Apply(c, RunAll(c, NOBODY, before), purge);
            && t !in RunAll(c, s', after).table
            && (LastSince(RunAll(c, s', after), t, now - c.idle / 2) <==>
                AcceptedSince(c, s', after, t, now - c.idle / 2))
            && (AcceptedSince(c, s', after, t, now - c.idle / 2) ==>
                exists q :: q in s'.flights && s'.flights[q].token == t)
  {
    var s := RunAll(c, NOBODY, before);
    var s', from := Apply(c, s, purge), now - c.idle / 2;
    RunKeeps(c, NOBODY, before);
    RunKeepsHalfIdle(c, slack, NOBODY, before);
    StepKeeps(c, s, purge);
    StepDropsIff(c, s, purge, t);
    PresentIff(c, s', after, t);
    LastSinceIff(c, s', after, t, from);
    assert EntryOk(c, s, t) && AcceptedHalf(c, s, t);
    if AcceptedSince(c, s', after, t, from) {
      var q := AcceptedWasUnderWay(c, s', after, t, from);
    }
  }

  /**
   It happens: a request takes its time at the last moment, a purge comes a tick later, and then
   the request is accepted.
   */
  lemma PurgeCostsSession(c: Config, slack: int, token: Token, userId: int)
    returns (before: seq<Step>, purge: Step, after: Step)
    requires Validated(c) && slack >= 1 && c.idle >= 2 && c.absolute >= 2 * c.idle
    ensures RunsPromptly(c, slack, NOBODY, before + [purge] + [after]) && Runs(c, NOBODY, before + [purge] + [after])
    ensures var s := RunAll(c, NOBODY, before + [purge] + [after]);
            token in s.lastAccepted && s.lastAccepted[token] == s.clock - 1 && token !in s.table
    ensures RunsPromptly(c, slack, NOBODY, before + [after]) && Runs(c, NOBODY, before + [after])
    ensures var s := RunAll(c, NOBODY, before + [after]);
            token in s.table && s.table[token].expiresAt == s.clock - 1 + c.idle
    ensures purge.Purge?
  {
    var t := c.idle;
    before := Overlap(token, userId, t, t, t);
    purge, after := Step.Purge(t + 1, t + 1), Settle(1, t + 1);
    OverlapRuns(c, slack, token, userId, t, t, t);
    RunSnoc(c, slack, NOBODY, before, after);
    RunSnoc(c, slack, NOBODY, before, purge);
    RunSnoc(c, slack, NOBODY, before + [purge], after);
  }
}
